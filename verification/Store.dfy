/**
 The state of the runtime: a window of the last 20 entries, an unbounded table with fallible inserts, and the store
 that writes to both and reads from the table first.
 */
module Stores {
  import opened Records
  import opened Sequences

  const MAX_HISTORY: nat := 20

  // ----- the two stores as values

  /** The window kept by the primary store. */
  datatype Window = Window(history: seq<Snapshot>, cycles: seq<CycleRecord>, cycleNum: int)

  /** The two tables of the secondary store, rows in insertion order, and its counter. */
  datatype Tables = Tables(snapshots: seq<Snapshot>, cycles: seq<CycleRecord>, cycleNum: int)

  function Push<T>(window: seq<T>, x: T): seq<T> {
    Suffix(window + [x], MAX_HISTORY)
  }

  function WindowAddCycle(w: Window, r: CycleRecord): Window {
    w.(cycles := Push(w.cycles, r.(cycleNum := w.cycleNum + 1)), cycleNum := w.cycleNum + 1)
  }

  /**
   What a row of the cycles table keeps of a record: seven metrics of its snapshot, stamped with the record's own
   time.
   */
  function Stored(r: CycleRecord): CycleRecord {
    var s := r.snapshot;
    r.(snapshot := Snapshot(r.timestamp, s.cpuPercent, s.memUsed, s.memTotal, s.memPercent, 0, 0, 0.0,
                            s.diskUsed, s.diskTotal, s.diskPercent, 0.0, 0.0, 0.0, 0.0, 0.0, []))
  }

  function StoredAll(rs: seq<CycleRecord>): (all: seq<CycleRecord>)
    ensures |all| == |rs|
    ensures forall i :: 0 <= i < |rs| ==> all[i] == Stored(rs[i])
  {
    seq(|rs|, i requires 0 <= i < |rs| => Stored(rs[i]))
  }

  /** The number a record is stored under: its own when the caller set one, else the next of the table's counter. */
  function TableNumber(t: Tables, r: CycleRecord): int {
    if r.cycleNum > 0 then r.cycleNum else t.cycleNum + 1
  }

  function TablesAddCycle(t: Tables, r: CycleRecord, inserted: bool): Tables {
    var num := TableNumber(t, r);
    t.(cycleNum := if r.cycleNum > 0 && r.cycleNum <= t.cycleNum then t.cycleNum else num,
       cycles := if inserted then t.cycles + [Stored(r.(cycleNum := num))] else t.cycles)
  }

  // ----- the double-write store, over any sequence of calls

  /** A write to the double store, with the fate of its insert into the table. */
  datatype Op =
    | Add(snap: Snapshot, inserted: bool)
    | AddCycle(record: CycleRecord, inserted: bool)

  datatype Double = Double(primary: Window, secondary: Tables)

  function Write(d: Double, op: Op): Double {
    match op
    case Add(snap, inserted) =>
      Double(d.primary.(history := Push(d.primary.history, snap)),
             if inserted then d.secondary.(snapshots := d.secondary.snapshots + [snap]) else d.secondary)
    case AddCycle(record, inserted) =>
      var w := WindowAddCycle(d.primary, record);
      Double(w, TablesAddCycle(d.secondary, record.(cycleNum := w.cycleNum), inserted))
  }

  function WriteAll(d: Double, ops: seq<Op>): Double {
    if ops == [] then d else Write(WriteAll(d, ops[..|ops| - 1]), ops[|ops| - 1])
  }

  const EMPTY: Double := Double(Window([], [], 0), Tables([], [], 0))

  /** The fate of one query: it may fail as a whole, or skip the rows (by position) that cannot be scanned. */
  datatype Query = Query(down: bool, unreadable: set<nat>)

  const CLEAN: Query := Query(false, {})

  /** The rows from position `from` on that can be read. */
  function Readable<T>(table: seq<T>, from: nat, unreadable: set<nat>): seq<T>
    decreases |table| - from
  {
    if from >= |table| then []
    else if from in unreadable then Readable(table, from + 1, unreadable)
    else [table[from]] + Readable(table, from + 1, unreadable)
  }

  /** The last `n` rows, oldest first. */
  function Select<T>(table: seq<T>, n: int, q: Query): seq<T> {
    if q.down || n <= 0 then []
    else Readable(table, if n < |table| then |table| - n else 0, q.unreadable)
  }

  /** Everything read from the table, or from the window when the table gave nothing. */
  function Prefer<T>(fromTable: seq<T>, fromWindow: seq<T>): seq<T> {
    if |fromTable| > 0 then fromTable else fromWindow
  }

  function ReadLast(d: Double, n: nat, q: Query): seq<Snapshot> {
    Prefer(Select(d.secondary.snapshots, n, q), Suffix(d.primary.history, n))
  }

  function ReadLastCycles(d: Double, n: nat, q: Query): seq<CycleRecord> {
    Prefer(Select(d.secondary.cycles, n, q), Suffix(d.primary.cycles, n))
  }

  lemma {:induction false} ReadableIsAll<T>(table: seq<T>, from: nat)
    requires from <= |table|
    ensures Readable(table, from, {}) == table[from..]
    decreases |table| - from
  {
    if from < |table| {
      ReadableIsAll(table, from + 1);
    }
  }

  lemma CleanSelect<T>(table: seq<T>, n: nat)
    ensures Select(table, n, CLEAN) == Suffix(table, n)
  {
    ReadableIsAll(table, if n < |table| then |table| - n else 0);
  }

  lemma SpellsOneMore<T>(rows: seq<T>, table: seq<T>, where: seq<nat>, from: nat)
    requires Spells(rows, table, where) && from < |table|
    requires forall k :: 0 <= k < |where| ==> from < where[k]
    ensures Spells([table[from]] + rows, table, [from] + where)
  {
  }

  lemma {:induction false} ReadablePositions<T>(table: seq<T>, from: nat, unreadable: set<nat>)
    returns (where: seq<nat>)
    ensures Spells(Readable(table, from, unreadable), table, where)
    ensures forall k :: 0 <= k < |where| ==> from <= where[k]
    decreases |table| - from
  {
    if from >= |table| {
      return [];
    }
    var rest := ReadablePositions(table, from + 1, unreadable);
    if from in unreadable {
      return rest;
    }
    SpellsOneMore(Readable(table, from + 1, unreadable), table, rest, from);
    return [from] + rest;
  }

  lemma SelectIsSubsequence<T>(table: seq<T>, n: int, q: Query)
    ensures IsSubsequence(Select(table, n, q), table)
  {
    if q.down || n <= 0 {
      assert Spells(Select(table, n, q), table, []);
    } else {
      var where := ReadablePositions(table, if n < |table| then |table| - n else 0, q.unreadable);
    }
  }

  // ----- what a read answers, from any two stores

  /** Where the last `n` of `total` rows begin. */
  function LastFrom(total: nat, n: nat): nat {
    if n < total then total - n else 0
  }

  /** `where` lists, in increasing order, exactly the positions from `from` on that can be read. */
  ghost predicate ReadableAt(where: seq<nat>, total: nat, from: nat, unreadable: set<nat>) {
    && (forall k :: 0 <= k < |where| ==> from <= where[k] < total && where[k] !in unreadable)
    && (forall j, k :: 0 <= j < k < |where| ==> where[j] < where[k])
    && (forall p: nat :: from <= p < total && p !in unreadable ==> p in where)
  }

  lemma OneMoreReadable(rest: seq<nat>, total: nat, from: nat, unreadable: set<nat>)
    requires from < total && ReadableAt(rest, total, from + 1, unreadable)
    ensures from !in unreadable ==> ReadableAt([from] + rest, total, from, unreadable)
    ensures from in unreadable ==> ReadableAt(rest, total, from, unreadable)
  {
    var where := [from] + rest;
    forall p: nat | from <= p < total && p !in unreadable
      ensures p in where
    {
      if p == from {
        assert where[0] == p;
      } else {
        assert p in rest;
      }
    }
  }

  lemma {:induction false} ReadableIsAt<T>(table: seq<T>, from: nat, unreadable: set<nat>) returns (where: seq<nat>)
    ensures ReadableAt(where, |table|, from, unreadable)
    ensures |Readable(table, from, unreadable)| == |where|
    ensures forall k :: 0 <= k < |where| ==> Readable(table, from, unreadable)[k] == table[where[k]]
    decreases |table| - from
  {
    if from >= |table| {
      return [];
    }
    var rest := ReadableIsAt(table, from + 1, unreadable);
    OneMoreReadable(rest, |table|, from, unreadable);
    where := if from in unreadable then rest else [from] + rest;
  }

  /** The table has nothing to say: the query fails, or none of the last `n` rows can be read. */
  ghost predicate Silent(total: nat, n: nat, q: Query) {
    q.down || forall p: nat :: LastFrom(total, n) <= p < total ==> p in q.unreadable
  }

  lemma PreferIs<T>(table: seq<T>, window: seq<T>, n: nat, q: Query) returns (where: seq<nat>)
    ensures Silent(|table|, n, q) ==> Prefer(Select(table, n, q), Suffix(window, n)) == Suffix(window, n)
    ensures !Silent(|table|, n, q) ==>
              && ReadableAt(where, |table|, LastFrom(|table|, n), q.unreadable) && where != []
              && |Prefer(Select(table, n, q), Suffix(window, n))| == |where|
              && forall k :: 0 <= k < |where| ==> Prefer(Select(table, n, q), Suffix(window, n))[k] == table[where[k]]
  {
    where := ReadableIsAt(table, LastFrom(|table|, n), q.unreadable);
    assert where != [] ==> LastFrom(|table|, n) <= where[0] < |table| && where[0] !in q.unreadable;
    if !Silent(|table|, n, q) {
      var p: nat :| LastFrom(|table|, n) <= p < |table| && p !in q.unreadable;
      assert p in where;
    }
  }

  /**
   From any two stores and whatever fails, reading snapshots gives the last `n` of the primary if the query fails or
   none of the last `n` rows can be read, and else exactly the readable ones of those rows, in order.
   */
  lemma LastIs(d: Double, n: nat, q: Query) returns (where: seq<nat>)
    ensures var rows, read := d.secondary.snapshots, ReadLast(d, n, q);
            if Silent(|rows|, n, q) then read == Suffix(d.primary.history, n)
            else
              && ReadableAt(where, |rows|, LastFrom(|rows|, n), q.unreadable) && where != []
              && |read| == |where| && forall k :: 0 <= k < |where| ==> read[k] == rows[where[k]]
  {
    where := PreferIs(d.secondary.snapshots, d.primary.history, n, q);
  }

  /** The same for reading cycles. */
  lemma LastCyclesIs(d: Double, n: nat, q: Query) returns (where: seq<nat>)
    ensures var rows, read := d.secondary.cycles, ReadLastCycles(d, n, q);
            if Silent(|rows|, n, q) then read == Suffix(d.primary.cycles, n)
            else
              && ReadableAt(where, |rows|, LastFrom(|rows|, n), q.unreadable) && where != []
              && |read| == |where| && forall k :: 0 <= k < |where| ==> read[k] == rows[where[k]]
  {
    where := PreferIs(d.secondary.cycles, d.primary.cycles, n, q);
  }

  /** What two records have in common when a row of the table cannot tell them apart. */
  ghost predicate SameColumns(a: CycleRecord, b: CycleRecord) {
    && a.action == b.action && a.analysis == b.analysis && a.reason == b.reason && a.command == b.command
    && a.cycleNum == b.cycleNum && a.timestamp == b.timestamp && a.confidence == b.confidence
    && a.triggerCPU == b.triggerCPU && a.triggerRAM == b.triggerRAM && a.triggerDisk == b.triggerDisk
    && a.snapshot.cpuPercent == b.snapshot.cpuPercent
    && a.snapshot.memUsed == b.snapshot.memUsed && a.snapshot.memTotal == b.snapshot.memTotal
    && a.snapshot.memPercent == b.snapshot.memPercent
    && a.snapshot.diskUsed == b.snapshot.diskUsed && a.snapshot.diskTotal == b.snapshot.diskTotal
    && a.snapshot.diskPercent == b.snapshot.diskPercent
  }

  /**
   A row keeps the whole decision and seven metrics of the snapshot, in the columns they came from, and nothing else:
   two records give the same row exactly when they agree on those.
   */
  lemma StoredIffSameColumns(a: CycleRecord, b: CycleRecord)
    ensures Stored(a) == Stored(b) <==> SameColumns(a, b)
    ensures SameColumns(a, Stored(a))
  {
  }

  // ----- the history they refine

  /** Every snapshot ever added, oldest first. */
  function Snapshots(ops: seq<Op>): seq<Snapshot> {
    if ops == [] then []
    else
      var before := Snapshots(ops[..|ops| - 1]);
      var last := ops[|ops| - 1];
      if last.Add? then before + [last.snap] else before
  }

  /** Every record ever added, oldest first, under the number `1, 2, 3, ...` of its position. */
  function Cycles(ops: seq<Op>): seq<CycleRecord> {
    if ops == [] then []
    else
      var before := Cycles(ops[..|ops| - 1]);
      var last := ops[|ops| - 1];
      if last.AddCycle? then before + [last.record.(cycleNum := |before| + 1)] else before
  }

  lemma CyclesAreNumbered(ops: seq<Op>)
    ensures forall i :: 0 <= i < |Cycles(ops)| ==> Cycles(ops)[i].cycleNum == i + 1
  {
  }

  /** The primary is, at all times, the last 20 entries of the history. */
  lemma {:induction false} PrimaryIsWindow(ops: seq<Op>)
    ensures WriteAll(EMPTY, ops).primary
         == Window(Suffix(Snapshots(ops), MAX_HISTORY), Suffix(Cycles(ops), MAX_HISTORY), |Cycles(ops)|)
  {
    if ops != [] {
      var before := ops[..|ops| - 1];
      PrimaryIsWindow(before);
      match ops[|ops| - 1]
      case Add(snap, _) =>
        SuffixOfPush(Snapshots(before), snap, MAX_HISTORY);
      case AddCycle(record, _) =>
        SuffixOfPush(Cycles(before), record.(cycleNum := |Cycles(before)| + 1), MAX_HISTORY);
    }
  }

  ghost predicate NoFailure(ops: seq<Op>) {
    forall i :: 0 <= i < |ops| ==> ops[i].inserted
  }

  lemma StoredAllAppend(rs: seq<CycleRecord>, r: CycleRecord)
    ensures StoredAll(rs + [r]) == StoredAll(rs) + [Stored(r)]
  {
  }

  lemma {:induction false} SecondaryIsHistory(ops: seq<Op>)
    requires NoFailure(ops)
    ensures WriteAll(EMPTY, ops).secondary == Tables(Snapshots(ops), StoredAll(Cycles(ops)), |Cycles(ops)|)
  {
    if ops != [] {
      var before := ops[..|ops| - 1];
      SecondaryIsHistory(before);
      PrimaryIsWindow(before);
      var last := ops[|ops| - 1];
      assert last.inserted;
      if last.AddCycle? {
        StoredAllAppend(Cycles(before), last.record.(cycleNum := |Cycles(before)| + 1));
      }
    }
  }

  lemma SuffixStored(rs: seq<CycleRecord>, n: nat)
    ensures Suffix(StoredAll(rs), n) == StoredAll(Suffix(rs, n))
  {
  }

  /** Without failures every read is the end of one append-only history, cycles through the stored columns. */
  lemma ReadsRefineHistory(ops: seq<Op>, n: nat)
    requires NoFailure(ops)
    ensures ReadLast(WriteAll(EMPTY, ops), n, CLEAN) == Suffix(Snapshots(ops), n)
    ensures ReadLastCycles(WriteAll(EMPTY, ops), n, CLEAN) == StoredAll(Suffix(Cycles(ops), n))
  {
    SecondaryIsHistory(ops);
    PrimaryIsWindow(ops);
    CleanSelect(Snapshots(ops), n);
    CleanSelect(StoredAll(Cycles(ops)), n);
    SuffixStored(Cycles(ops), n);
  }

  /** Without failures, and up to 20 entries, reading the table gives what the window alone would have given. */
  lemma ReadsAgreeWithPrimary(ops: seq<Op>, n: nat)
    requires NoFailure(ops) && n <= MAX_HISTORY
    ensures var d := WriteAll(EMPTY, ops);
            && ReadLast(d, n, CLEAN) == Suffix(d.primary.history, n)
            && ReadLastCycles(d, n, CLEAN) == StoredAll(Suffix(d.primary.cycles, n))
  {
    ReadsRefineHistory(ops, n);
    PrimaryIsWindow(ops);
    SuffixOfSuffix(Snapshots(ops), MAX_HISTORY, n);
    SuffixOfSuffix(Cycles(ops), MAX_HISTORY, n);
  }

  // ----- reads when inserts fail

  lemma {:induction false} TableIsSubsequence(ops: seq<Op>)
    ensures IsSubsequence(WriteAll(EMPTY, ops).secondary.snapshots, Snapshots(ops))
    ensures IsSubsequence(WriteAll(EMPTY, ops).secondary.cycles, StoredAll(Cycles(ops)))
  {
    if ops == [] {
      SubsequenceOfItself<Snapshot>([]);
      SubsequenceOfItself<CycleRecord>([]);
    } else {
      var before := ops[..|ops| - 1];
      var d := WriteAll(EMPTY, before).secondary;
      TableIsSubsequence(before);
      PrimaryIsWindow(before);
      match ops[|ops| - 1]
      case Add(snap, _) =>
        SubsequenceTakesLast(d.snapshots, Snapshots(before), snap);
        SubsequenceSkipsLast(d.snapshots, Snapshots(before), snap);
      case AddCycle(record, _) =>
        var r := record.(cycleNum := |Cycles(before)| + 1);
        StoredAllAppend(Cycles(before), r);
        SubsequenceTakesLast(d.cycles, StoredAll(Cycles(before)), Stored(r));
        SubsequenceSkipsLast(d.cycles, StoredAll(Cycles(before)), Stored(r));
    }
  }

  lemma StoredTwice(rs: seq<CycleRecord>)
    ensures StoredAll(StoredAll(rs)) == StoredAll(rs)
  {
  }

  lemma StoredSubsequence(a: seq<CycleRecord>, b: seq<CycleRecord>)
    requires IsSubsequence(a, b)
    ensures IsSubsequence(StoredAll(a), StoredAll(b))
  {
    var where: seq<nat> :| Spells(a, b, where);
    assert Spells(StoredAll(a), StoredAll(b), where);
  }

  lemma PrimaryIsSubsequence(ops: seq<Op>, n: nat)
    ensures IsSubsequence(Suffix(WriteAll(EMPTY, ops).primary.history, n), Snapshots(ops))
    ensures IsSubsequence(Suffix(WriteAll(EMPTY, ops).primary.cycles, n), Cycles(ops))
  {
    PrimaryIsWindow(ops);
    SubsequenceOfItself(Snapshots(ops));
    SubsequenceOfItself(Cycles(ops));
    SuffixOfSubsequence(Snapshots(ops), Snapshots(ops), MAX_HISTORY);
    SuffixOfSubsequence(Cycles(ops), Cycles(ops), MAX_HISTORY);
    SuffixOfSubsequence(WriteAll(EMPTY, ops).primary.history, Snapshots(ops), n);
    SuffixOfSubsequence(WriteAll(EMPTY, ops).primary.cycles, Cycles(ops), n);
  }

  /** Whatever inserts, queries and scans fail, a read never invents, repeats or reorders entries of the history. */
  lemma ReadsStayInHistory(ops: seq<Op>, n: nat, q: Query)
    ensures IsSubsequence(ReadLast(WriteAll(EMPTY, ops), n, q), Snapshots(ops))
    ensures IsSubsequence(StoredAll(ReadLastCycles(WriteAll(EMPTY, ops), n, q)), StoredAll(Cycles(ops)))
  {
    var d := WriteAll(EMPTY, ops);
    var table := d.secondary;
    TableIsSubsequence(ops);
    PrimaryIsSubsequence(ops, n);
    SelectIsSubsequence(table.snapshots, n, q);
    SelectIsSubsequence(table.cycles, n, q);
    SubsequenceTransitive(Select(table.snapshots, n, q), table.snapshots, Snapshots(ops));
    SubsequenceTransitive(Select(table.cycles, n, q), table.cycles, StoredAll(Cycles(ops)));
    StoredSubsequence(Suffix(d.primary.cycles, n), Cycles(ops));
    StoredSubsequence(Select(table.cycles, n, q), StoredAll(Cycles(ops)));
    StoredTwice(Cycles(ops));
  }

  lemma {:induction false} TableNumbersAreOld(ops: seq<Op>, i: nat)
    requires i < |WriteAll(EMPTY, ops).secondary.cycles|
    ensures 1 <= WriteAll(EMPTY, ops).secondary.cycles[i].cycleNum <= |Cycles(ops)|
  {
    TableIsSubsequence(ops);
    CyclesAreNumbered(ops);
    var where: seq<nat> :| Spells(WriteAll(EMPTY, ops).secondary.cycles, StoredAll(Cycles(ops)), where);
    assert StoredAll(Cycles(ops))[where[i]].cycleNum == where[i] + 1;
  }

  /** What `LastCycles(1)` returns: the newest row, or the primary's newest record while the table is empty. */
  lemma ReadOneCycle(d: Double)
    ensures ReadLastCycles(d, 1, CLEAN)
         == Suffix(if d.secondary.cycles == [] then d.primary.cycles else d.secondary.cycles, 1)
  {
    CleanSelect(d.secondary.cycles, 1);
  }

  lemma StoredOne(r: CycleRecord)
    ensures StoredAll([r]) == [Stored(r)] && Stored(Stored(r)) == Stored(r)
  {
  }

  /** After one more `AddCycle`: the newest record and what became of the two stores. */
  lemma OneMoreCycle(before: seq<Op>, op: Op)
    requires op.AddCycle?
    ensures var d, earlier := WriteAll(EMPTY, before + [op]), WriteAll(EMPTY, before);
            var newest := op.record.(cycleNum := |Cycles(before)| + 1);
            && Cycles(before + [op]) == Cycles(before) + [newest]
            && d.primary.cycles != [] && d.primary.cycles[|d.primary.cycles| - 1] == newest
            && d.secondary.cycles
               == (if op.inserted then earlier.secondary.cycles + [Stored(newest)] else earlier.secondary.cycles)
  {
    assert (before + [op])[..|before|] == before;
    PrimaryIsWindow(before);
  }

  /** Reading one cycle returns the newest record, up to the stored columns. */
  ghost predicate ReadsNewest(d: Double, newest: CycleRecord) {
    StoredAll(ReadLastCycles(d, 1, CLEAN)) == [Stored(newest)]
  }

  lemma ReadsNewestIff(d: Double, newest: CycleRecord)
    requires d.primary.cycles != [] && d.primary.cycles[|d.primary.cycles| - 1] == newest
    ensures ReadsNewest(d, newest)
       <==> d.secondary.cycles == [] || Stored(d.secondary.cycles[|d.secondary.cycles| - 1]) == Stored(newest)
  {
    ReadOneCycle(d);
    var rows := if d.secondary.cycles == [] then d.primary.cycles else d.secondary.cycles;
    assert Suffix(rows, 1) == [rows[|rows| - 1]];
    StoredOne(rows[|rows| - 1]);
  }

  /**
   The newest record is what `LastCycles(1)` returns exactly when its insert succeeded or the table is still empty:
   after a failed insert a non-empty table answers with an older record, although the primary holds the newest.
   */
  lemma NewestIsReadIff(before: seq<Op>, op: Op)
    requires op.AddCycle?
    ensures var d := WriteAll(EMPTY, before + [op]);
            ReadsNewest(d, op.record.(cycleNum := |Cycles(before)| + 1)) <==> op.inserted || d.secondary.cycles == []
  {
    OneMoreCycle(before, op);
    var d := WriteAll(EMPTY, before + [op]);
    var newest := op.record.(cycleNum := |Cycles(before)| + 1);
    ReadsNewestIff(d, newest);
    StoredOne(newest);
    if !op.inserted && d.secondary.cycles != [] {
      TableNumbersAreOld(before, |d.secondary.cycles| - 1);
    }
  }

  // ----- how many records the table and the window agree on

  /** The fate of the insert of each cycle record, oldest first. */
  function Fates(ops: seq<Op>): (fates: seq<bool>)
    ensures |fates| == |Cycles(ops)|
  {
    if ops == [] then []
    else
      var before := Fates(ops[..|ops| - 1]);
      var last := ops[|ops| - 1];
      if last.AddCycle? then before + [last.inserted] else before
  }

  /** The rows of those of the first `k` records whose insert succeeded. */
  function RowsOf(all: seq<CycleRecord>, fates: seq<bool>, k: nat): seq<CycleRecord>
    requires k <= |all| == |fates|
  {
    if k == 0 then []
    else RowsOf(all, fates, k - 1) + if fates[k - 1] then [Stored(all[k - 1])] else []
  }

  lemma {:induction false} RowsOfLonger(all: seq<CycleRecord>, fates: seq<bool>, r: CycleRecord, fate: bool, k: nat)
    requires k <= |all| == |fates|
    ensures RowsOf(all + [r], fates + [fate], k) == RowsOf(all, fates, k)
  {
    if k > 0 {
      RowsOfLonger(all, fates, r, fate, k - 1);
    }
  }

  /** The table is, at all times, the history filtered by the fates of the inserts. */
  lemma {:induction false} TableIsFiltered(ops: seq<Op>)
    ensures WriteAll(EMPTY, ops).secondary.cycles == RowsOf(Cycles(ops), Fates(ops), |Cycles(ops)|)
  {
    if ops != [] {
      var before, last := ops[..|ops| - 1], ops[|ops| - 1];
      TableIsFiltered(before);
      if last.AddCycle? {
        PrimaryIsWindow(before);
        var newest := last.record.(cycleNum := |Cycles(before)| + 1);
        RowsOfLonger(Cycles(before), Fates(before), newest, last.inserted, |Cycles(before)|);
      }
    }
  }

  ghost predicate Numbered(all: seq<CycleRecord>) {
    forall i :: 0 <= i < |all| ==> all[i].cycleNum == i + 1
  }

  lemma {:induction false} RowsOfAreOld(all: seq<CycleRecord>, fates: seq<bool>, k: nat)
    requires k <= |all| == |fates| && Numbered(all)
    ensures |RowsOf(all, fates, k)| <= k
    ensures forall i :: 0 <= i < |RowsOf(all, fates, k)| ==> RowsOf(all, fates, k)[i].cycleNum <= k
  {
    if k > 0 {
      RowsOfAreOld(all, fates, k - 1);
    }
  }

  /** The rows end with the stored forms of the records `k - m..k`. */
  ghost predicate EndWith(rows: seq<CycleRecord>, all: seq<CycleRecord>, k: nat, m: nat)
    requires m <= k <= |all|
  {
    m <= |rows| && forall i :: |rows| - m <= i < |rows| ==> rows[i] == Stored(all[i + k - |rows|])
  }

  /** The inserts of the records `k - m..k` all succeeded. */
  ghost predicate AllInserted(fates: seq<bool>, k: nat, m: nat)
    requires m <= k <= |fates|
  {
    forall j :: k - m <= j < k ==> fates[j]
  }

  lemma RowAdded(rows: seq<CycleRecord>, all: seq<CycleRecord>, k: nat, m: nat)
    requires 0 < m <= k <= |all|
    ensures EndWith(rows + [Stored(all[k - 1])], all, k, m) <==> EndWith(rows, all, k - 1, m - 1)
  {
    var longer := rows + [Stored(all[k - 1])];
    assert forall i :: 0 <= i < |rows| ==> rows[i] == longer[i];
  }

  lemma {:induction false} EndWithIff(all: seq<CycleRecord>, fates: seq<bool>, k: nat, m: nat)
    requires m <= k <= |all| == |fates| && Numbered(all)
    ensures EndWith(RowsOf(all, fates, k), all, k, m) <==> AllInserted(fates, k, m)
  {
    if m > 0 {
      var rows := RowsOf(all, fates, k - 1);
      if fates[k - 1] {
        EndWithIff(all, fates, k - 1, m - 1);
        RowAdded(rows, all, k, m);
        assert AllInserted(fates, k, m) <==> AllInserted(fates, k - 1, m - 1);
      } else {
        RowsOfAreOld(all, fates, k - 1);
        assert RowsOf(all, fates, k) == rows;
        assert |rows| > 0 ==> rows[|rows| - 1] != Stored(all[k - 1]);
      }
    }
  }

  lemma EndWithIsSuffix(rows: seq<CycleRecord>, all: seq<CycleRecord>, m: nat)
    requires m <= |all|
    ensures EndWith(rows, all, |all|, m) <==> m <= |rows| && Suffix(rows, m) == StoredAll(Suffix(all, m))
  {
    SuffixStored(all, m);
    if m <= |rows| {
      SameSuffix(rows, StoredAll(all), m);
    }
  }

  /** Both stores answer a read of `n` cycles alike, up to the stored columns. */
  ghost predicate ReadsLikePrimary(d: Double, n: nat) {
    StoredAll(ReadLastCycles(d, n, CLEAN)) == StoredAll(Suffix(d.primary.cycles, n))
  }

  lemma RowsAreStored(ops: seq<Op>)
    ensures StoredAll(WriteAll(EMPTY, ops).secondary.cycles) == WriteAll(EMPTY, ops).secondary.cycles
  {
    TableIsSubsequence(ops);
    var rows := WriteAll(EMPTY, ops).secondary.cycles;
    var where: seq<nat> :| Spells(rows, StoredAll(Cycles(ops)), where);
    forall k | 0 <= k < |rows|
      ensures Stored(rows[k]) == rows[k]
    {
      StoredOne(Cycles(ops)[where[k]]);
    }
  }

  lemma ReadsLikePrimaryMeans(ops: seq<Op>, n: nat)
    requires 1 <= n <= MAX_HISTORY && WriteAll(EMPTY, ops).secondary.cycles != []
    ensures ReadsLikePrimary(WriteAll(EMPTY, ops), n)
       <==> Suffix(WriteAll(EMPTY, ops).secondary.cycles, n) == StoredAll(Suffix(Cycles(ops), n))
  {
    var d := WriteAll(EMPTY, ops);
    PrimaryIsWindow(ops);
    SuffixOfSuffix(Cycles(ops), MAX_HISTORY, n);
    CleanSelect(d.secondary.cycles, n);
    RowsAreStored(ops);
    SuffixStored(d.secondary.cycles, n);
  }

  function Min(a: nat, b: nat): nat {
    if a < b then a else b
  }

  /**
   The last `n` rows are the last `n` records exactly when the last `n` inserts, or all if there were fewer,
   succeeded.
   */
  lemma RowsEndIff(all: seq<CycleRecord>, fates: seq<bool>, n: nat)
    requires |all| == |fates| && Numbered(all)
    ensures Suffix(RowsOf(all, fates, |all|), n) == StoredAll(Suffix(all, n))
       <==> AllInserted(fates, |all|, Min(n, |all|))
  {
    var rows := RowsOf(all, fates, |all|);
    var m := Min(n, |all|);
    RowsOfAreOld(all, fates, |all|);
    assert Suffix(rows, n) == Suffix(rows, m) && Suffix(all, n) == Suffix(all, m);
    EndWithIff(all, fates, |all|, m);
    EndWithIsSuffix(rows, all, m);
  }

  /**
   Whatever inserts failed, a read of up to 20 cycles gives what the primary alone would give exactly when the table is
   still empty or every one of the last `n` inserts, or all of them if there were fewer, succeeded.
   */
  lemma ReadsAgreeIff(ops: seq<Op>, n: nat)
    requires 1 <= n <= MAX_HISTORY
    ensures ReadsLikePrimary(WriteAll(EMPTY, ops), n)
       <==> WriteAll(EMPTY, ops).secondary.cycles == [] || AllInserted(Fates(ops), |Fates(ops)|, Min(n, |Fates(ops)|))
  {
    var rows := WriteAll(EMPTY, ops).secondary.cycles;
    if rows == [] {
      CleanSelect(rows, n);
    } else {
      ReadsLikePrimaryMeans(ops, n);
      TableIsFiltered(ops);
      CyclesAreNumbered(ops);
      RowsEndIff(Cycles(ops), Fates(ops), n);
    }
  }

  // ----- cycle numbers, from any starting point

  function CycleCount(ops: seq<Op>): nat {
    if ops == [] then 0
    else CycleCount(ops[..|ops| - 1]) + if ops[|ops| - 1].AddCycle? then 1 else 0
  }

  lemma {:induction false} Counters(d: Double, ops: seq<Op>)
    requires d.primary.cycleNum >= 0
    ensures var after := WriteAll(d, ops);
            var reached := d.primary.cycleNum + CycleCount(ops);
            && after.primary.cycleNum == reached
            && after.secondary.cycleNum
               == if CycleCount(ops) == 0 || d.secondary.cycleNum > reached then d.secondary.cycleNum else reached
  {
    if ops != [] {
      Counters(d, ops[..|ops| - 1]);
    }
  }

  /**
   After at least one `AddCycle`, whatever inserts failed, the two counters agree exactly when the table's counter did
   not start further ahead than the number of cycles added since.
   */
  lemma CountersAgreeIff(d: Double, ops: seq<Op>)
    requires d.primary.cycleNum >= 0 && CycleCount(ops) >= 1
    ensures var after := WriteAll(d, ops);
            (after.primary.cycleNum == after.secondary.cycleNum
             <==> d.secondary.cycleNum <= d.primary.cycleNum + CycleCount(ops))
  {
    Counters(d, ops);
  }

  ghost predicate RowsNumbered(rows: seq<CycleRecord>, upTo: int) {
    && (forall i, j :: 0 <= i < j < |rows| ==> rows[i].cycleNum < rows[j].cycleNum)
    && (forall i :: 0 <= i < |rows| ==> rows[i].cycleNum <= upTo)
  }

  /** If the table holds nothing beyond the primary's counter, its row numbers stay strictly increasing. */
  lemma {:induction false} RowNumbersIncrease(d: Double, ops: seq<Op>)
    requires d.primary.cycleNum >= 0 && RowsNumbered(d.secondary.cycles, d.primary.cycleNum)
    ensures var after := WriteAll(d, ops); RowsNumbered(after.secondary.cycles, after.primary.cycleNum)
  {
    if ops != [] {
      RowNumbersIncrease(d, ops[..|ops| - 1]);
      Counters(d, ops[..|ops| - 1]);
    }
  }

  /**
   A table that gets one more row keeps its rows in order exactly when the record is unnumbered, and so gets the
   counter's next number, or comes with a number above the newest row's; the counter itself never goes back.
   */
  lemma TableOrderIff(t: Tables, r: CycleRecord)
    requires RowsNumbered(t.cycles, t.cycleNum)
    ensures var after := TablesAddCycle(t, r, true);
            && after.cycleNum >= t.cycleNum
            && (RowsNumbered(after.cycles, after.cycleNum)
                <==> r.cycleNum <= 0 || t.cycles == [] || r.cycleNum > t.cycles[|t.cycles| - 1].cycleNum)
  {
    var after := TablesAddCycle(t, r, true);
    var n := |t.cycles|;
    assert after.cycles[n].cycleNum == TableNumber(t, r);
    assert n > 0 ==> after.cycles[n - 1] == t.cycles[n - 1];
  }

  /** The window carries consecutive numbers that end at the counter. */
  ghost predicate Consecutive(w: Window) {
    forall i :: 0 <= i < |w.cycles| ==> w.cycles[i].cycleNum == w.cycleNum - |w.cycles| + 1 + i
  }

  lemma {:induction false} WindowStaysConsecutive(d: Double, ops: seq<Op>)
    requires Consecutive(d.primary)
    ensures Consecutive(WriteAll(d, ops).primary)
  {
    if ops != [] {
      WindowStaysConsecutive(d, ops[..|ops| - 1]);
    }
  }

  // ----- the objects of the implementation

  /** The primary: an in-memory window, saved as JSON. */
  class State {
    var history: seq<Snapshot>
    var cycles: seq<CycleRecord>
    var cycleNum: int

    ghost function View(): Window
      reads this
    {
      Window(history, cycles, cycleNum)
    }

    constructor ()
      ensures View() == EMPTY.primary
    {
      history, cycles, cycleNum := [], [], 0;
    }

    method Add(snap: Snapshot)
      modifies this
      ensures View() == old(View()).(history := Push(old(history), snap))
      ensures history == Suffix(old(history) + [snap], 20)
    {
      history := history + [snap];
      if |history| > MAX_HISTORY {
        history := history[|history| - MAX_HISTORY..];
      }
    }

    method AddCycle(record: CycleRecord)
      modifies this
      ensures View() == WindowAddCycle(old(View()), record)
      ensures cycles == Suffix(old(cycles) + [record.(cycleNum := old(cycleNum) + 1)], 20)
      ensures cycleNum == old(cycleNum) + 1 && history == old(history)
    {
      cycleNum := cycleNum + 1;
      cycles := cycles + [record.(cycleNum := cycleNum)];
      if |cycles| > MAX_HISTORY {
        cycles := cycles[|cycles| - MAX_HISTORY..];
      }
    }

    /** A negative `n` would make the implementation panic; callers ask for 0 entries or more. */
    method Last(n: int) returns (result: seq<Snapshot>)
      requires n >= 0
      ensures result == Suffix(history, n)
    {
      var k := if n > |history| then |history| else n;
      result := history[|history| - k..];
    }

    method LastCycles(n: int) returns (result: seq<CycleRecord>)
      requires n >= 0
      ensures result == Suffix(cycles, n)
    {
      var k := if n > |cycles| then |cycles| else n;
      result := cycles[|cycles| - k..];
    }
  }

  /** Reverses rows in place by swapping from both ends. */
  method ReverseRows<T>(rows: array<T>)
    modifies rows
    ensures rows[..] == Reversed(old(rows[..]))
  {
    var i, j := 0, rows.Length - 1;
    while i < j
      invariant 0 <= i <= rows.Length && j == rows.Length - 1 - i
      invariant forall k :: 0 <= k < rows.Length ==>
                  rows[k] == old(rows[..])[if k < i || j < k then rows.Length - 1 - k else k]
    {
      rows[i], rows[j] := rows[j], rows[i];
      i, j := i + 1, j - 1;
    }
  }

  /** Collects rows newest first, as `ORDER BY id DESC LIMIT n` yields them. */
  method CollectRows<T>(table: seq<T>, limit: nat, unreadable: set<nat>) returns (rows: seq<T>)
    requires limit <= |table|
    ensures rows == Reversed(Readable(table, |table| - limit, unreadable))
  {
    rows := [];
    for k := 0 to limit
      invariant rows == Reversed(Readable(table, |table| - k, unreadable))
    {
      var at := |table| - 1 - k;
      if at !in unreadable {
        rows := rows + [table[at]];
      }
    }
  }

  lemma ReversedTwice<T>(s: seq<T>)
    ensures Reversed(Reversed(s)) == s
  {
  }

  method InOrder<T>(newestFirst: seq<T>) returns (rows: seq<T>)
    ensures rows == Reversed(newestFirst)
  {
    var buffer := new T[|newestFirst|](i requires 0 <= i < |newestFirst| => newestFirst[i]);
    assert buffer[..] == newestFirst;
    ReverseRows(buffer);
    rows := buffer[..];
  }

  /** The last `n` rows back in insertion order. */
  method SelectRows<T>(table: seq<T>, n: int, q: Query) returns (rows: seq<T>)
    ensures rows == Select(table, n, q)
  {
    if n <= 0 || q.down {
      return [];
    }
    var limit := if n < |table| then n else |table|;
    ghost var wanted := Readable(table, |table| - limit, q.unreadable);
    assert wanted == Select(table, n, q);
    var newestFirst := CollectRows(table, limit, q.unreadable);
    rows := InOrder(newestFirst);
    ReversedTwice(wanted);
  }

  /** The secondary: two tables and a counter that never goes back. */
  class SQLiteStore {
    var snapshots: seq<Snapshot>
    var cycles: seq<CycleRecord>
    var cycleNum: int

    ghost function View(): Tables
      reads this
    {
      Tables(snapshots, cycles, cycleNum)
    }

    constructor ()
      ensures View() == EMPTY.secondary
    {
      snapshots, cycles, cycleNum := [], [], 0;
    }

    method Add(snap: Snapshot, inserted: bool)
      modifies this
      ensures View() == if inserted then old(View()).(snapshots := old(snapshots) + [snap]) else old(View())
    {
      if inserted {
        snapshots := snapshots + [snap];
      }
    }

    method AddCycle(record: CycleRecord, inserted: bool)
      modifies this
      ensures View() == TablesAddCycle(old(View()), record, inserted)
      ensures var number := if record.cycleNum > 0 then record.cycleNum else old(cycleNum) + 1;
              && cycleNum == (if number > old(cycleNum) then number else old(cycleNum))
              && snapshots == old(snapshots)
              && if inserted then
                   && |cycles| == |old(cycles)| + 1 && cycles[..|old(cycles)|] == old(cycles)
                   && SameColumns(cycles[|old(cycles)|], record.(cycleNum := number))
                 else cycles == old(cycles)
    {
      var r := record;
      if r.cycleNum > 0 {
        if r.cycleNum > cycleNum {
          cycleNum := r.cycleNum;
        }
      } else {
        cycleNum := cycleNum + 1;
        r := r.(cycleNum := cycleNum);
      }
      if inserted {
        cycles := cycles + [Stored(r)];
      }
    }

    method Last(n: int, q: Query) returns (result: seq<Snapshot>)
      ensures result == Select(snapshots, n, q)
    {
      result := SelectRows(snapshots, n, q);
    }

    method LastCycles(n: int, q: Query) returns (result: seq<CycleRecord>)
      ensures result == Select(cycles, n, q)
    {
      result := SelectRows(cycles, n, q);
    }
  }

  /** Writes to both stores and prefers the secondary's answers. */
  class DoubleWriteStore {
    const primary: State
    const secondary: SQLiteStore

    ghost function View(): Double
      reads primary, secondary
    {
      Double(primary.View(), secondary.View())
    }

    constructor (primary: State, secondary: SQLiteStore)
      ensures this.primary == primary && this.secondary == secondary
    {
      this.primary, this.secondary := primary, secondary;
    }

    method Add(snap: Snapshot, inserted: bool)
      modifies primary, secondary
      ensures View() == Write(old(View()), Op.Add(snap, inserted))
    {
      primary.Add(snap);
      secondary.Add(snap, inserted);
    }

    method AddCycle(record: CycleRecord, inserted: bool)
      modifies primary, secondary
      ensures View() == Write(old(View()), Op.AddCycle(record, inserted))
    {
      primary.AddCycle(record);
      var current := CurrentCycle();
      secondary.AddCycle(record.(cycleNum := current), inserted);
    }

    /** The table answers with what it can read of its last `n` rows; if that is nothing, the primary does. */
    method Last(n: int, q: Query) returns (result: seq<Snapshot>)
      requires n >= 0
      ensures result == ReadLast(View(), n, q)
      ensures Silent(|secondary.snapshots|, n, q) ==> result == Suffix(primary.history, n)
      ensures !Silent(|secondary.snapshots|, n, q) ==>
                exists where ::
                  && ReadableAt(where, |secondary.snapshots|, LastFrom(|secondary.snapshots|, n), q.unreadable)
                  && |result| == |where| && forall k :: 0 <= k < |where| ==> result[k] == secondary.snapshots[where[k]]
    {
      ghost var where := LastIs(View(), n, q);
      result := secondary.Last(n, q);
      if |result| == 0 {
        result := primary.Last(n);
      }
    }

    method LastCycles(n: int, q: Query) returns (result: seq<CycleRecord>)
      requires n >= 0
      ensures result == ReadLastCycles(View(), n, q)
      ensures Silent(|secondary.cycles|, n, q) ==> result == Suffix(primary.cycles, n)
      ensures !Silent(|secondary.cycles|, n, q) ==>
                exists where :: ReadableAt(where, |secondary.cycles|, LastFrom(|secondary.cycles|, n), q.unreadable)
                  && |result| == |where| && forall k :: 0 <= k < |where| ==> result[k] == secondary.cycles[where[k]]
    {
      ghost var where := LastCyclesIs(View(), n, q);
      result := secondary.LastCycles(n, q);
      if |result| == 0 {
        result := primary.LastCycles(n);
      }
    }

    method CurrentCycle() returns (n: int)
      ensures n == primary.cycleNum
    {
      n := primary.cycleNum;
    }
  }
}
