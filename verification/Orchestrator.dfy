/**
 From a reply to an executed command: the stored decision, the verification of its triggers, the guard and the dry
 run.
 */
module Orchestrators {
  import Breakers
  import opened Options
  import opened Records
  import opened Parsers
  import opened Retries
  import opened Sequences
  import opened Stores

  // ----- from a decision to a stored record

  /** The record of a decision; only an execute remembers the metrics that motivated it. */
  function RecordOf(d: Decision, snap: Snapshot): CycleRecord {
    var r := NewCycleRecord(snap, d.action, d.analysis, d.reason, d.command).(confidence := d.confidence);
    if d.action == "execute" then
      r.(triggerCPU := snap.cpuPercent, triggerRAM := snap.memPercent, triggerDisk := snap.diskPercent)
    else r
  }

  /** Every field of the record of decision `d` on snapshot `snap`, before it has a number. */
  ghost predicate IsFilled(r: CycleRecord, d: Decision, snap: Snapshot) {
    && r.action == d.action && r.analysis == d.analysis && r.reason == d.reason && r.command == d.command
    && r.confidence == d.confidence && r.snapshot == snap && r.timestamp == snap.timestamp && r.cycleNum == 0
    && (if d.action == "execute" then
          r.triggerCPU == snap.cpuPercent && r.triggerRAM == snap.memPercent && r.triggerDisk == snap.diskPercent
        else r.triggerCPU == r.triggerRAM == r.triggerDisk == 0.0)
  }

  const MARGIN: real := 5.0

  predicate ShouldExecute(r: CycleRecord, current: Snapshot) {
    if r.triggerCPU == 0.0 && r.triggerRAM == 0.0 && r.triggerDisk == 0.0 then true
    else if r.triggerCPU > 0.0 && current.cpuPercent < r.triggerCPU - MARGIN then false
    else if r.triggerRAM > 0.0 && current.memPercent < r.triggerRAM - MARGIN then false
    else if r.triggerDisk > 0.0 && current.diskPercent < r.triggerDisk - MARGIN then false
    else true
  }

  /** A metric is still close to the positive value it had when the decision was taken. */
  predicate StillHigh(trigger: real, current: real) {
    trigger > 0.0 ==> current >= trigger - 5.0
  }

  /** A command goes ahead exactly when every metric that triggered it is at most five points lower. */
  lemma ExecutesIffStillHigh(r: CycleRecord, current: Snapshot)
    ensures ShouldExecute(r, current) <==>
              && StillHigh(r.triggerCPU, current.cpuPercent)
              && StillHigh(r.triggerRAM, current.memPercent)
              && StillHigh(r.triggerDisk, current.diskPercent)
  {
  }

  // ----- the guard

  /** The last command granted and when. */
  datatype Guard = Guard(lastCmd: string, lastExecAt: Option<int>)

  const NO_GRANT: Guard := Guard("", None)

  predicate Grants(g: Guard, cooldown: int, cmd: string, now: int) {
    !(cmd == g.lastCmd && g.lastExecAt.Some? && now - g.lastExecAt.value < cooldown)
  }

  // ----- whole runs

  datatype Config = Config(dryRun: bool, cooldown: int)

  /** A command that ran, for real or simulated: the record it came from, the metrics it ran on and its time stamp. */
  datatype Run = Run(record: CycleRecord, snap: Snapshot, at: int)

  /** What the orchestrator has done: its guard, every run so far and every executed event published. */
  datatype Acts = Acts(guard: Guard, runs: seq<Run>, published: seq<string>)

  const NOTHING_DONE: Acts := Acts(NO_GRANT, [], [])

  /**
   The system agent stores a record and a snapshot, with the fates of their two inserts; or a snapshot is observed,
   which finds the orchestrator busy or makes it read one cycle back. Without a table every query fails and the
   primary answers. The guard reads the clock twice in a tick, at `now` and at `stamp`.
   */
  datatype Step =
    | Keep(record: CycleRecord, cycleInserted: bool, snap: Snapshot, snapInserted: bool)
    | Skip
    | Tick(query: Query, snap: Snapshot, now: int, stamp: int)

  function Kept(d: Double, record: CycleRecord, cycleInserted: bool, snap: Snapshot, snapInserted: bool): Double {
    Write(Write(d, Op.AddCycle(record, cycleInserted)), Op.Add(snap, snapInserted))
  }

  /** The store after the first `n` steps of a program that started with whatever records `start` holds. */
  function StoreAfter(start: Double, steps: seq<Step>, n: nat): Double
    requires n <= |steps|
  {
    if n == 0 then start
    else
      match steps[n - 1]
      case Keep(record, cycleInserted, snap, snapInserted) =>
        Kept(StoreAfter(start, steps, n - 1), record, cycleInserted, snap, snapInserted)
      case _ => StoreAfter(start, steps, n - 1)
  }

  /** What asking for the last cycle gives. */
  function Newest(d: Double, q: Query): Option<CycleRecord> {
    var read := ReadLastCycles(d, 1, q);
    if read == [] then None else Some(read[0])
  }

  /** What a tick reads back after the first `n` steps. */
  function ReadAfter(start: Double, steps: seq<Step>, n: nat, q: Query): Option<CycleRecord>
    requires n <= |steps|
  {
    Newest(StoreAfter(start, steps, n), q)
  }

  /**
   A tick runs the command of the record it reads unless there is none, its triggers are gone or the guard refuses.
   */
  predicate Runs(c: Config, g: Guard, read: Option<CycleRecord>, snap: Snapshot, now: int) {
    read.Some? && read.value.command != "" && ShouldExecute(read.value, snap)
    && Grants(g, c.cooldown, read.value.command, now)
  }

  /**
   There is a command, every metric that triggered it is still within five points, and it is not the last command
   granted or that was long enough ago.
   */
  lemma RunsIff(c: Config, g: Guard, read: Option<CycleRecord>, snap: Snapshot, now: int)
    ensures Runs(c, g, read, snap, now) <==>
              && read.Some? && read.value.command != ""
              && (read.value.triggerCPU > 0.0 ==> snap.cpuPercent >= read.value.triggerCPU - 5.0)
              && (read.value.triggerRAM > 0.0 ==> snap.memPercent >= read.value.triggerRAM - 5.0)
              && (read.value.triggerDisk > 0.0 ==> snap.diskPercent >= read.value.triggerDisk - 5.0)
              && (read.value.command != g.lastCmd || g.lastExecAt.None? || now - g.lastExecAt.value >= c.cooldown)
  {
  }

  function Observe(c: Config, acts: Acts, read: Option<CycleRecord>, snap: Snapshot, now: int, stamp: int): Acts {
    if !Runs(c, acts.guard, read, snap, now) then acts
    else
      var cmd := read.value.command;
      Acts(Guard(cmd, Some(stamp)),
           acts.runs + [Run(read.value, snap, stamp)],
           if c.dryRun then acts.published else acts.published + [TrimSpace(cmd)])
  }

  /** What the orchestrator has done after the first `n` steps. */
  function ActsAfter(c: Config, start: Double, steps: seq<Step>, n: nat): Acts
    requires n <= |steps|
  {
    if n == 0 then NOTHING_DONE
    else
      match steps[n - 1]
      case Tick(query, snap, now, stamp) =>
        Observe(c, ActsAfter(c, start, steps, n - 1), ReadAfter(start, steps, n - 1, query), snap, now, stamp)
      case _ => ActsAfter(c, start, steps, n - 1)
  }

  /** All the commands that the first `n` steps run. */
  function RunsAfter(c: Config, start: Double, steps: seq<Step>, n: nat): seq<Run>
    requires n <= |steps|
  {
    ActsAfter(c, start, steps, n).runs
  }

  // ----- which tick a run belongs to

  /** A tick that reads `read` ran: it found a command and its triggers, and was granted. */
  ghost predicate RanBy(c: Config, acts: Acts, step: Step, read: Option<CycleRecord>, run: Run) {
    && step.Tick?
    && read == Some(run.record)
    && Runs(c, acts.guard, read, step.snap, step.now)
    && run == Run(run.record, step.snap, step.stamp)
  }

  /** Run `k` is what tick `t` did. */
  ghost predicate RanAt(c: Config, start: Double, steps: seq<Step>, run: Run, k: nat, t: nat) {
    && t < |steps| && steps[t].Tick?
    && |RunsAfter(c, start, steps, t)| == k
    && RanBy(c, ActsAfter(c, start, steps, t), steps[t], ReadAfter(start, steps, t, steps[t].query), run)
  }

  lemma NewRun(c: Config, acts: Acts, step: Step, read: Option<CycleRecord>, k: nat)
    requires step.Tick?
    requires k < |Observe(c, acts, read, step.snap, step.now, step.stamp).runs|
    ensures var runs := Observe(c, acts, read, step.snap, step.now, step.stamp).runs;
            if k < |acts.runs| then runs[k] == acts.runs[k]
            else k == |acts.runs| && RanBy(c, acts, step, read, runs[k])
  {
  }

  lemma EarlierOrNewRun(c: Config, start: Double, steps: seq<Step>, n: nat, k: nat)
    requires n <= |steps| && k < |RunsAfter(c, start, steps, n)|
    ensures n > 0
    ensures if k < |RunsAfter(c, start, steps, n - 1)| then
              RunsAfter(c, start, steps, n)[k] == RunsAfter(c, start, steps, n - 1)[k]
            else RanAt(c, start, steps, RunsAfter(c, start, steps, n)[k], k, n - 1)
  {
    var acts, step := ActsAfter(c, start, steps, n - 1), steps[n - 1];
    if step.Tick? {
      NewRun(c, acts, step, ReadAfter(start, steps, n - 1, step.query), k);
    }
  }

  lemma {:induction false} TickOfRun(c: Config, start: Double, steps: seq<Step>, n: nat, k: nat) returns (t: nat)
    requires n <= |steps| && k < |RunsAfter(c, start, steps, n)|
    ensures t < n && RanAt(c, start, steps, RunsAfter(c, start, steps, n)[k], k, t)
  {
    EarlierOrNewRun(c, start, steps, n, k);
    if k < |RunsAfter(c, start, steps, n - 1)| {
      t := TickOfRun(c, start, steps, n - 1, k);
    } else {
      t := n - 1;
    }
  }

  // ----- where commands come from

  /** `r` is the record `proposed` under some number, directly or through the columns of the table. */
  ghost predicate IsRecordOf(r: CycleRecord, proposed: CycleRecord) {
    r == proposed.(cycleNum := r.cycleNum) || r == Stored(proposed.(cycleNum := r.cycleNum))
  }

  ghost predicate Holds(d: Double, r: CycleRecord) {
    r in d.primary.cycles || r in d.secondary.cycles
  }

  /** `r` is what step `i` stored. */
  ghost predicate KeptBy(steps: seq<Step>, r: CycleRecord, i: nat) {
    i < |steps| && steps[i].Keep? && IsRecordOf(r, steps[i].record)
  }

  /** Storing a record adds it, under the next number of the primary, and nothing else. */
  lemma KeptAdds(d: Double, record: CycleRecord, cycleInserted: bool, snap: Snapshot, snapInserted: bool)
    ensures var after := Kept(d, record, cycleInserted, snap, snapInserted);
            var numbered := record.(cycleNum := d.primary.cycleNum + 1);
            && after.primary.cycleNum == d.primary.cycleNum + 1
            && after.primary.cycles == Push(d.primary.cycles, numbered)
            && (cycleInserted ==>
                  exists num :: after.secondary.cycles == d.secondary.cycles + [Stored(record.(cycleNum := num))])
            && (cycleInserted && d.primary.cycleNum >= 0 ==>
                  after.secondary.cycles == d.secondary.cycles + [Stored(numbered)])
            && (!cycleInserted ==> after.secondary.cycles == d.secondary.cycles)
  {
    var numbered := record.(cycleNum := d.primary.cycleNum + 1);
    var num := TableNumber(d.secondary, numbered);
    assert numbered.(cycleNum := num) == record.(cycleNum := num);
  }

  lemma KeptHolds(
      d: Double, record: CycleRecord, cycleInserted: bool, snap: Snapshot, snapInserted: bool, r: CycleRecord)
    requires Holds(Kept(d, record, cycleInserted, snap, snapInserted), r)
    ensures Holds(d, r) || IsRecordOf(r, record)
  {
    KeptAdds(d, record, cycleInserted, snap, snapInserted);
  }

  lemma {:induction false} RecordsHaveOrigin(start: Double, steps: seq<Step>, n: nat, r: CycleRecord) returns (i: nat)
    requires n <= |steps| && Holds(StoreAfter(start, steps, n), r)
    ensures Holds(start, r) || (i < n && KeptBy(steps, r, i))
  {
    if n == 0 {
      return 0;
    }
    var before, step := StoreAfter(start, steps, n - 1), steps[n - 1];
    if step.Keep? {
      KeptHolds(before, step.record, step.cycleInserted, step.snap, step.snapInserted, r);
    }
    if Holds(before, r) {
      i := RecordsHaveOrigin(start, steps, n - 1, r);
    } else {
      i := n - 1;
    }
  }

  /** The newest row is what is read back, unless the query fails, there is no row or this one cannot be scanned. */
  predicate AnswersFromTable(d: Double, q: Query) {
    !q.down && d.secondary.cycles != [] && |d.secondary.cycles| - 1 !in q.unreadable
  }

  lemma NewestIs(d: Double, q: Query)
    ensures Newest(d, q)
         == if AnswersFromTable(d, q) then Some(d.secondary.cycles[|d.secondary.cycles| - 1])
            else if d.primary.cycles == [] then None
            else Some(d.primary.cycles[|d.primary.cycles| - 1])
  {
    var rows := d.secondary.cycles;
    assert Readable(rows, |rows|, q.unreadable) == [];
  }

  lemma ReadIsHeld(d: Double, q: Query, r: CycleRecord)
    requires Newest(d, q) == Some(r)
    ensures Holds(d, r)
  {
    NewestIs(d, q);
  }

  /**
   Every command that ever ran was in the store at the start or was stored before the tick that ran it, and its own
   triggers still called for it on the metrics of that tick.
   */
  lemma EveryRunIsJustified(c: Config, start: Double, steps: seq<Step>, n: nat, k: nat) returns (t: nat, i: nat)
    requires n <= |steps| && k < |RunsAfter(c, start, steps, n)|
    ensures var run := RunsAfter(c, start, steps, n)[k];
            && t < n && RanAt(c, start, steps, run, k, t)
            && run.record.command != "" && ShouldExecute(run.record, run.snap)
            && (Holds(start, run.record) || (i < t && KeptBy(steps, run.record, i)))
  {
    t := TickOfRun(c, start, steps, n, k);
    var r := RunsAfter(c, start, steps, n)[k].record;
    ReadIsHeld(StoreAfter(start, steps, t), steps[t].query, r);
    i := RecordsHaveOrigin(start, steps, t, r);
  }

  /** Any command ran while every metric recorded as its trigger was at most five points lower. */
  lemma RunsWhileStillHigh(c: Config, start: Double, steps: seq<Step>, n: nat, k: nat)
    requires n <= |steps| && k < |RunsAfter(c, start, steps, n)|
    ensures var run := RunsAfter(c, start, steps, n)[k];
            && StillHigh(run.record.triggerCPU, run.snap.cpuPercent)
            && StillHigh(run.record.triggerRAM, run.snap.memPercent)
            && StillHigh(run.record.triggerDisk, run.snap.diskPercent)
  {
    var t, i := EveryRunIsJustified(c, start, steps, n, k);
    ExecutesIffStillHigh(RunsAfter(c, start, steps, n)[k].record, RunsAfter(c, start, steps, n)[k].snap);
  }

  // ----- which record runs

  /** The latest of the first `n` steps that stored a record. */
  function Latest(steps: seq<Step>, n: nat): (latest: Option<nat>)
    requires n <= |steps|
    ensures latest.Some? ==>
              && latest.value < n && steps[latest.value].Keep?
              && forall j :: latest.value < j < n ==> !steps[j].Keep?
    ensures latest.None? ==> forall j :: 0 <= j < n ==> !steps[j].Keep?
  {
    if n == 0 then None
    else if steps[n - 1].Keep? then Some(n - 1)
    else Latest(steps, n - 1)
  }

  /** The rows of a store are in order and no newer than the primary's counter. */
  ghost predicate Consistent(d: Double) {
    RowsNumbered(d.secondary.cycles, d.primary.cycleNum)
  }

  lemma {:induction false} StaysConsistent(start: Double, steps: seq<Step>, n: nat)
    requires n <= |steps| && start.primary.cycleNum >= 0
    ensures StoreAfter(start, steps, n).primary.cycleNum >= 0
    ensures Consistent(start) ==> Consistent(StoreAfter(start, steps, n))
  {
    if n > 0 {
      StaysConsistent(start, steps, n - 1);
      var step := steps[n - 1];
      if step.Keep? {
        var d := StoreAfter(start, steps, n - 1);
      }
    }
  }

  lemma {:induction false} StoreSince(start: Double, steps: seq<Step>, a: nat, n: nat)
    requires a <= n <= |steps|
    requires forall j :: a <= j < n ==> !steps[j].Keep?
    ensures StoreAfter(start, steps, n) == StoreAfter(start, steps, a)
    decreases n
  {
    if a < n {
      StoreSince(start, steps, a, n - 1);
    }
  }

  /** The steps among the first `n` whose record got a row, oldest first. */
  function Writers(steps: seq<Step>, n: nat): (writers: seq<nat>)
    requires n <= |steps|
    ensures forall k :: 0 <= k < |writers| ==>
              writers[k] < n && steps[writers[k]].Keep? && steps[writers[k]].cycleInserted
  {
    if n == 0 then []
    else if steps[n - 1].Keep? && steps[n - 1].cycleInserted then Writers(steps, n - 1) + [n - 1]
    else Writers(steps, n - 1)
  }

  /** The rows are those of the start and then, one by one, those that these steps wrote. */
  ghost predicate WrittenBy(rows: seq<CycleRecord>, first: seq<CycleRecord>, steps: seq<Step>, writers: seq<nat>) {
    && |rows| == |first| + |writers|
    && (forall k :: 0 <= k < |first| ==> rows[k] == first[k])
    && (forall k :: |first| <= k < |rows| ==> KeptBy(steps, rows[k], writers[k - |first|]))
  }

  lemma KeptWrites(
      d: Double, first: seq<CycleRecord>, steps: seq<Step>, writers: seq<nat>, i: nat)
    requires i < |steps| && steps[i].Keep? && WrittenBy(d.secondary.cycles, first, steps, writers)
    ensures var step := steps[i];
            var after := Kept(d, step.record, step.cycleInserted, step.snap, step.snapInserted).secondary.cycles;
            WrittenBy(after, first, steps, if step.cycleInserted then writers + [i] else writers)
  {
    var step := steps[i];
    KeptAdds(d, step.record, step.cycleInserted, step.snap, step.snapInserted);
  }

  lemma {:induction false} RowsAreWritten(start: Double, steps: seq<Step>, n: nat)
    requires n <= |steps|
    ensures WrittenBy(StoreAfter(start, steps, n).secondary.cycles, start.secondary.cycles, steps, Writers(steps, n))
  {
    if n > 0 {
      RowsAreWritten(start, steps, n - 1);
      if steps[n - 1].Keep? {
        KeptWrites(StoreAfter(start, steps, n - 1), start.secondary.cycles, steps, Writers(steps, n - 1), n - 1);
      }
    }
  }

  lemma {:induction false} LatestWriter(steps: seq<Step>, n: nat)
    requires n <= |steps|
    ensures Writers(steps, n) != [] ==>
              Latest(steps, n).Some? && Writers(steps, n)[|Writers(steps, n)| - 1] <= Latest(steps, n).value
    ensures Latest(steps, n).Some? ==>
              (steps[Latest(steps, n).value].cycleInserted
               <==> Writers(steps, n) != [] && Writers(steps, n)[|Writers(steps, n)| - 1] == Latest(steps, n).value)
  {
    if n > 0 {
      LatestWriter(steps, n - 1);
    }
  }

  /**
   The step whose record a tick reads, if that was not in the store at the start: the writer of the newest row when the
   table answers, and else the latest step that stored a record.
   */
  function ReadFrom(start: Double, steps: seq<Step>, n: nat, q: Query): Option<nat>
    requires n <= |steps|
  {
    if !AnswersFromTable(StoreAfter(start, steps, n), q) then Latest(steps, n)
    else if Writers(steps, n) == [] then None
    else Some(Writers(steps, n)[|Writers(steps, n)| - 1])
  }

  /** Right after a record is stored, it is what is read back unless an older row answers in its place. */
  lemma ReadAfterKept(d: Double, record: CycleRecord, cycleInserted: bool, snap: Snapshot, snapInserted: bool, q: Query)
    ensures var after := Kept(d, record, cycleInserted, snap, snapInserted);
            var read := Newest(after, q);
            && read.Some?
            && (cycleInserted || !AnswersFromTable(after, q) ==>
                  && IsRecordOf(read.value, record)
                  && (d.primary.cycleNum >= 0 ==> read.value.cycleNum == after.primary.cycleNum))
            && (d.primary.cycleNum >= 0 && Consistent(d) && !cycleInserted && AnswersFromTable(after, q) ==>
                  read.value.cycleNum < after.primary.cycleNum)
  {
    KeptAdds(d, record, cycleInserted, snap, snapInserted);
    NewestIs(Kept(d, record, cycleInserted, snap, snapInserted), q);
  }

  /** The latest record is the one that answers: its insert succeeded or the table does not answer at all. */
  ghost predicate LatestAnswers(d: Double, steps: seq<Step>, i: nat, q: Query)
    requires i < |steps| && steps[i].Keep?
  {
    steps[i].cycleInserted || !AnswersFromTable(d, q)
  }

  /** `r` is what step `i` stored and, if the numbers did not start below 0, carries the primary's present number. */
  ghost predicate IsCurrent(start: Double, d: Double, steps: seq<Step>, r: CycleRecord, i: nat) {
    KeptBy(steps, r, i) && (start.primary.cycleNum >= 0 ==> r.cycleNum == d.primary.cycleNum)
  }

  lemma ReadsLatest(start: Double, steps: seq<Step>, n: nat, q: Query)
    requires n <= |steps| && Latest(steps, n).Some?
    ensures var d, read, i := StoreAfter(start, steps, n), ReadAfter(start, steps, n, q), Latest(steps, n).value;
            && read.Some?
            && (LatestAnswers(d, steps, i, q) ==> IsCurrent(start, d, steps, read.value, i))
            && (start.primary.cycleNum >= 0 && Consistent(start) && !LatestAnswers(d, steps, i, q) ==>
                  read.value.cycleNum < d.primary.cycleNum)
  {
    var i := Latest(steps, n).value;
    var step := steps[i];
    if start.primary.cycleNum >= 0 {
      StaysConsistent(start, steps, i);
    }
    StoreSince(start, steps, i + 1, n);
    ReadAfterKept(StoreAfter(start, steps, i), step.record, step.cycleInserted, step.snap, step.snapInserted, q);
  }

  /** What a tick reads is the record of the step it reads from, or one that was in the store at the start. */
  lemma ReadIsFrom(start: Double, steps: seq<Step>, n: nat, q: Query)
    requires n <= |steps| && ReadAfter(start, steps, n, q).Some?
    ensures match ReadFrom(start, steps, n, q)
            case None => Holds(start, ReadAfter(start, steps, n, q).value)
            case Some(i) => i < n && KeptBy(steps, ReadAfter(start, steps, n, q).value, i)
  {
    var d := StoreAfter(start, steps, n);
    if AnswersFromTable(d, q) {
      RowsAreWritten(start, steps, n);
    } else if Latest(steps, n).Some? {
      ReadsLatest(start, steps, n, q);
    } else {
      StoreSince(start, steps, 0, n);
      ReadIsHeld(start, q, ReadAfter(start, steps, n, q).value);
    }
  }

  /**
   Whatever was stored before and whatever inserts, queries and scans failed, a tick reads the latest record exactly
   when its insert succeeded or the table does not answer; otherwise it reads the record of an earlier step or one that
   was there at the start.
   */
  lemma ReadsLatestIff(start: Double, steps: seq<Step>, n: nat, q: Query)
    requires n <= |steps| && Latest(steps, n).Some?
    ensures var d, read, i := StoreAfter(start, steps, n), ReadAfter(start, steps, n, q), Latest(steps, n).value;
            && read.Some?
            && (ReadFrom(start, steps, n, q) == Some(i) <==> LatestAnswers(d, steps, i, q))
            && (LatestAnswers(d, steps, i, q) ==> IsCurrent(start, d, steps, read.value, i))
            && (start.primary.cycleNum >= 0 && Consistent(start) && !LatestAnswers(d, steps, i, q) ==>
                  read.value.cycleNum < d.primary.cycleNum)
            && match ReadFrom(start, steps, n, q)
               case None => Holds(start, read.value)
               case Some(w) => w <= i && KeptBy(steps, read.value, w)
  {
    ReadsLatest(start, steps, n, q);
    ReadIsFrom(start, steps, n, q);
    LatestWriter(steps, n);
  }

  /**
   A run is that of the latest record before its tick exactly when that record's insert succeeded or the table did not
   answer the tick; before the first record is stored a run is that of one present at the start.
   */
  lemma RunsLatestIff(c: Config, start: Double, steps: seq<Step>, n: nat, k: nat) returns (t: nat)
    requires n <= |steps| && k < |RunsAfter(c, start, steps, n)|
    ensures t < n && RanAt(c, start, steps, RunsAfter(c, start, steps, n)[k], k, t)
    ensures var source, latest := ReadFrom(start, steps, t, steps[t].query), Latest(steps, t);
            var d, r := StoreAfter(start, steps, t), RunsAfter(c, start, steps, n)[k].record;
            && (latest.Some? ==>
                  && (source == latest <==> LatestAnswers(d, steps, latest.value, steps[t].query))
                  && (source == latest ==> IsCurrent(start, d, steps, r, latest.value)))
            && match source
               case None => Holds(start, r)
               case Some(w) => latest.Some? && w <= latest.value && KeptBy(steps, r, w)
  {
    t := TickOfRun(c, start, steps, n, k);
    if Latest(steps, t).Some? {
      ReadsLatest(start, steps, t, steps[t].query);
    }
    ReadIsFrom(start, steps, t, steps[t].query);
    LatestWriter(steps, t);
  }

  ghost predicate NoFailures(steps: seq<Step>) {
    forall i :: 0 <= i < |steps| ==>
      (steps[i].Keep? ==> steps[i].cycleInserted) && (steps[i].Tick? ==> steps[i].query == CLEAN)
  }

  /** Without failures an older command never runs once a newer record is stored, whether that has a command or not. */
  lemma OnlyTheLatestRuns(c: Config, start: Double, steps: seq<Step>, n: nat, k: nat) returns (t: nat)
    requires n <= |steps| && NoFailures(steps) && k < |RunsAfter(c, start, steps, n)|
    ensures var run := RunsAfter(c, start, steps, n)[k];
            && t < n && RanAt(c, start, steps, run, k, t)
            && match Latest(steps, t)
               case None => Holds(start, run.record)
               case Some(i) => IsCurrent(start, StoreAfter(start, steps, t), steps, run.record, i)
  {
    t := TickOfRun(c, start, steps, n, k);
    if Latest(steps, t).Some? {
      ReadsLatest(start, steps, t, CLEAN);
    } else {
      StoreSince(start, steps, 0, t);
      ReadIsHeld(start, CLEAN, RunsAfter(c, start, steps, n)[k].record);
    }
  }

  // ----- how often

  /** An observation with the record that it reads back. */
  datatype Look = Look(read: Option<CycleRecord>, snap: Snapshot, now: int, stamp: int)

  /** What some observations make the orchestrator do, whatever store they read. */
  function ActOn(c: Config, looks: seq<Look>): Acts {
    if looks == [] then NOTHING_DONE
    else
      var last := looks[|looks| - 1];
      Observe(c, ActOn(c, looks[..|looks| - 1]), last.read, last.snap, last.now, last.stamp)
  }

  /** The two readings of the clock in an observation are in order. */
  ghost predicate InOrder(looks: seq<Look>) {
    forall i :: 0 <= i < |looks| ==> looks[i].now <= looks[i].stamp
  }

  ghost predicate ClockRuns(steps: seq<Step>) {
    forall i :: 0 <= i < |steps| && steps[i].Tick? ==> steps[i].now <= steps[i].stamp
  }

  lemma OneMoreLook(c: Config, looks: seq<Look>, look: Look)
    ensures ActOn(c, looks + [look]) == Observe(c, ActOn(c, looks), look.read, look.snap, look.now, look.stamp)
  {
    assert (looks + [look])[..|looks|] == looks;
  }

  /** What tick `t` sees. */
  function LookAt(start: Double, steps: seq<Step>, t: nat): Look
    requires t < |steps| && steps[t].Tick?
  {
    Look(ReadAfter(start, steps, t, steps[t].query), steps[t].snap, steps[t].now, steps[t].stamp)
  }

  /** What the ticks among the first `n` steps see. */
  function Looks(start: Double, steps: seq<Step>, n: nat): seq<Look>
    requires n <= |steps|
  {
    if n == 0 then []
    else if steps[n - 1].Tick? then Looks(start, steps, n - 1) + [LookAt(start, steps, n - 1)]
    else Looks(start, steps, n - 1)
  }

  lemma {:induction false} LooksInOrder(start: Double, steps: seq<Step>, n: nat)
    requires n <= |steps| && ClockRuns(steps)
    ensures InOrder(Looks(start, steps, n))
  {
    if n > 0 {
      LooksInOrder(start, steps, n - 1);
    }
  }

  lemma TickLooks(c: Config, start: Double, steps: seq<Step>, t: nat, looks: seq<Look>)
    requires t < |steps| && steps[t].Tick? && ActsAfter(c, start, steps, t) == ActOn(c, looks)
    ensures ActsAfter(c, start, steps, t + 1) == ActOn(c, looks + [LookAt(start, steps, t)])
  {
    OneMoreLook(c, looks, LookAt(start, steps, t));
  }

  /** What the orchestrator does depends on what its ticks see and on nothing else. */
  lemma {:induction false} ActsAreOn(c: Config, start: Double, steps: seq<Step>, n: nat)
    requires n <= |steps|
    ensures ActsAfter(c, start, steps, n) == ActOn(c, Looks(start, steps, n))
  {
    if n > 0 {
      ActsAreOn(c, start, steps, n - 1);
      if steps[n - 1].Tick? {
        TickLooks(c, start, steps, n - 1, Looks(start, steps, n - 1));
      }
    }
  }

  ghost predicate GuardIsLastRun(acts: Acts) {
    acts.guard == if acts.runs == [] then NO_GRANT
                  else Guard(acts.runs[|acts.runs| - 1].record.command, Some(acts.runs[|acts.runs| - 1].at))
  }

  lemma {:induction false} LooksKeepGuard(c: Config, looks: seq<Look>)
    ensures GuardIsLastRun(ActOn(c, looks))
  {
    if looks != [] {
      LooksKeepGuard(c, looks[..|looks| - 1]);
    }
  }

  /** In every run the guard refuses a command exactly when the very last run was of that command and is too recent. */
  lemma {:induction false} RefusedIffJustRan(c: Config, start: Double, steps: seq<Step>, n: nat, cmd: string, now: int)
    requires n <= |steps|
    ensures var runs := RunsAfter(c, start, steps, n);
            !Grants(ActsAfter(c, start, steps, n).guard, c.cooldown, cmd, now) <==>
              && runs != []
              && runs[|runs| - 1].record.command == cmd
              && now - runs[|runs| - 1].at < c.cooldown
  {
    ActsAreOn(c, start, steps, n);
    LooksKeepGuard(c, Looks(start, steps, n));
  }

  /** Two runs in a row of the same command are at least the cooldown apart. */
  ghost predicate RepeatsSpaced(runs: seq<Run>, cooldown: int) {
    forall k :: 0 < k < |runs| && runs[k - 1].record.command == runs[k].record.command ==>
      runs[k].at - runs[k - 1].at >= cooldown
  }

  lemma {:induction false} LooksKeepSpacing(c: Config, looks: seq<Look>)
    requires InOrder(looks)
    ensures RepeatsSpaced(ActOn(c, looks).runs, c.cooldown)
  {
    if looks != [] {
      LooksKeepSpacing(c, looks[..|looks| - 1]);
      LooksKeepGuard(c, looks[..|looks| - 1]);
    }
  }

  /**
   Whatever is decided, stored and read in between, two runs in a row of one command are at least the cooldown apart.
   */
  lemma {:induction false} RepeatsAreSpaced(c: Config, start: Double, steps: seq<Step>, n: nat)
    requires n <= |steps| && ClockRuns(steps)
    ensures RepeatsSpaced(RunsAfter(c, start, steps, n), c.cooldown)
  {
    ActsAreOn(c, start, steps, n);
    LooksInOrder(start, steps, n);
    LooksKeepSpacing(c, Looks(start, steps, n));
  }

  lemma {:induction false} SpacedRate(runs: seq<Run>, cooldown: int, i: nat, j: nat)
    requires i <= j < |runs| && RepeatsSpaced(runs, cooldown)
    requires forall k :: i <= k <= j ==> runs[k].record.command == runs[i].record.command
    ensures (j - i) * cooldown <= runs[j].at - runs[i].at
    decreases j
  {
    if i < j {
      SpacedRate(runs, cooldown, i, j - 1);
      assert (j - i) * cooldown == (j - 1 - i) * cooldown + cooldown;
    }
  }

  /** While nothing else runs, a command runs at most span / cooldown + 1 times in any span of time. */
  lemma RepeatRate(c: Config, start: Double, steps: seq<Step>, n: nat, i: nat, j: nat)
    requires n <= |steps| && ClockRuns(steps)
    requires i <= j < |RunsAfter(c, start, steps, n)|
    requires forall k :: i <= k <= j ==>
               RunsAfter(c, start, steps, n)[k].record.command == RunsAfter(c, start, steps, n)[i].record.command
    ensures (j - i) * c.cooldown <= RunsAfter(c, start, steps, n)[j].at - RunsAfter(c, start, steps, n)[i].at
  {
    RepeatsAreSpaced(c, start, steps, n);
    SpacedRate(RunsAfter(c, start, steps, n), c.cooldown, i, j);
  }

  lemma AtLeastOnce(n: int, cooldown: nat)
    requires n >= 1
    ensures n * cooldown >= cooldown
  {
  }

  lemma OtherBetween(runs: seq<Run>, cooldown: nat, i: nat, j: nat) returns (k: nat)
    requires i < j < |runs| && RepeatsSpaced(runs, cooldown)
    requires runs[j].at - runs[i].at < cooldown
    requires runs[i].record.command == runs[j].record.command
    ensures i < k < j && runs[k].record.command != runs[i].record.command
  {
    k := i + 1;
    while k <= j && runs[k].record.command == runs[i].record.command
      invariant i < k <= j + 1
      invariant forall m :: i <= m < k ==> runs[m].record.command == runs[i].record.command
    {
      k := k + 1;
    }
    if k == j + 1 {
      AtLeastOnce(j - i, cooldown);
      SpacedRate(runs, cooldown, i, j);
      assert false;
    }
  }

  /** One command only ever runs twice within its cooldown when a different one has run in between. */
  lemma CloseRepeatsNeedAnother(c: Config, start: Double, steps: seq<Step>, n: nat, i: nat, j: nat) returns (k: nat)
    requires n <= |steps| && ClockRuns(steps) && c.cooldown >= 0
    requires i < j < |RunsAfter(c, start, steps, n)|
    requires var runs := RunsAfter(c, start, steps, n);
             runs[i].record.command == runs[j].record.command && runs[j].at - runs[i].at < c.cooldown
    ensures i < k < j
    ensures RunsAfter(c, start, steps, n)[k].record.command != RunsAfter(c, start, steps, n)[i].record.command
  {
    RepeatsAreSpaced(c, start, steps, n);
    k := OtherBetween(RunsAfter(c, start, steps, n), c.cooldown, i, j);
  }

  // ----- while nothing is stored

  lemma {:induction false} SameStore(start: Double, steps: seq<Step>, more: seq<Step>, n: nat)
    requires n <= |steps|
    ensures StoreAfter(start, steps + more, n) == StoreAfter(start, steps, n)
  {
    if n > 0 {
      SameStore(start, steps, more, n - 1);
    }
  }

  lemma {:induction false} SameLooks(start: Double, steps: seq<Step>, more: seq<Step>, n: nat)
    requires n <= |steps|
    ensures Looks(start, steps + more, n) == Looks(start, steps, n)
  {
    if n > 0 {
      SameLooks(start, steps, more, n - 1);
      SameStore(start, steps, more, n - 1);
    }
  }

  lemma SameActs(c: Config, start: Double, steps: seq<Step>, more: seq<Step>, n: nat)
    requires n <= |steps|
    ensures ActsAfter(c, start, steps + more, n) == ActsAfter(c, start, steps, n)
  {
    ActsAreOn(c, start, steps + more, n);
    ActsAreOn(c, start, steps, n);
    SameLooks(start, steps, more, n);
  }

  /** The present store and acts of a run. */
  ghost predicate IsAt(c: Config, start: Double, steps: seq<Step>, d: Double, acts: Acts) {
    StoreAfter(start, steps, |steps|) == d && ActsAfter(c, start, steps, |steps|) == acts
  }

  lemma OneMoreTick(c: Config, start: Double, steps: seq<Step>, d: Double, acts: Acts, tick: Step)
    requires IsAt(c, start, steps, d, acts) && tick.Tick?
    ensures IsAt(c, start, steps + [tick], d, Observe(c, acts, Newest(d, tick.query), tick.snap, tick.now, tick.stamp))
  {
    SameStore(start, steps, [tick], |steps|);
    SameActs(c, start, steps, [tick], |steps|);
  }

  lemma OneMoreSkip(c: Config, start: Double, steps: seq<Step>, d: Double, acts: Acts)
    requires IsAt(c, start, steps, d, acts)
    ensures IsAt(c, start, steps + [Skip], d, acts)
  {
    SameStore(start, steps, [Skip], |steps|);
    SameActs(c, start, steps, [Skip], |steps|);
  }

  lemma StoreOfMore(start: Double, steps: seq<Step>, d: Double, step: Step)
    requires StoreAfter(start, steps, |steps|) == d && step.Keep?
    ensures StoreAfter(start, steps + [step], |steps| + 1)
         == Kept(d, step.record, step.cycleInserted, step.snap, step.snapInserted)
  {
    SameStore(start, steps, [step], |steps|);
  }

  lemma OneMoreKeep(c: Config, start: Double, steps: seq<Step>, d: Double, acts: Acts, step: Step)
    requires IsAt(c, start, steps, d, acts) && step.Keep?
    ensures IsAt(c, start, steps + [step], Kept(d, step.record, step.cycleInserted, step.snap, step.snapInserted), acts)
  {
    StoreOfMore(start, steps, d, step);
    SameActs(c, start, steps, [step], |steps|);
  }

  /** Nothing is stored between steps `a` and `n`. */
  ghost predicate NothingKept(steps: seq<Step>, a: nat, n: nat)
    requires a <= n <= |steps|
  {
    forall j :: a <= j < n ==> !steps[j].Keep?
  }

  predicate HasCommand(cycles: seq<CycleRecord>) {
    cycles != [] && cycles[|cycles| - 1].command != ""
  }

  /** The newest row and the primary's newest record do not carry two different commands. */
  predicate OneCommand(d: Double) {
    HasCommand(d.secondary.cycles) && HasCommand(d.primary.cycles) ==>
      d.secondary.cycles[|d.secondary.cycles| - 1].command == d.primary.cycles[|d.primary.cycles| - 1].command
  }

  /** The command that a store with one command answers with, if with any. */
  function TheCommand(d: Double): string {
    if HasCommand(d.secondary.cycles) then d.secondary.cycles[|d.secondary.cycles| - 1].command
    else if HasCommand(d.primary.cycles) then d.primary.cycles[|d.primary.cycles| - 1].command
    else ""
  }

  lemma ReadsTheCommand(d: Double, q: Query)
    requires OneCommand(d)
    ensures Newest(d, q).Some? && Newest(d, q).value.command != "" ==> Newest(d, q).value.command == TheCommand(d)
  {
    NewestIs(d, q);
  }

  lemma KeptSettles(d: Double, record: CycleRecord, snap: Snapshot, snapInserted: bool)
    ensures OneCommand(Kept(d, record, true, snap, snapInserted))
  {
    KeptAdds(d, record, true, snap, snapInserted);
  }

  /** Once the latest record has its row both stores end with that record. */
  lemma InsertedSettles(start: Double, steps: seq<Step>, n: nat)
    requires n <= |steps| && Latest(steps, n).Some? && steps[Latest(steps, n).value].cycleInserted
    ensures OneCommand(StoreAfter(start, steps, n))
  {
    var i := Latest(steps, n).value;
    var step := steps[i];
    StoreSince(start, steps, i + 1, n);
    KeptSettles(StoreAfter(start, steps, i), step.record, step.snap, step.snapInserted);
  }

  /** Every run from the `from`th on is of this command. */
  ghost predicate AllOf(runs: seq<Run>, from: nat, cmd: string) {
    forall k :: from <= k < |runs| ==> runs[k].record.command == cmd
  }

  /** From the `m`th on, some observations read no command or this one. */
  ghost predicate ReadOnly(looks: seq<Look>, m: nat, cmd: string) {
    forall k :: m <= k < |looks| && looks[k].read.Some? && looks[k].read.value.command != "" ==>
      looks[k].read.value.command == cmd
  }

  lemma {:induction false} LooksRunOnly(c: Config, first: seq<Look>, looks: seq<Look>, cmd: string)
    requires first <= looks && ReadOnly(looks, |first|, cmd)
    ensures AllOf(ActOn(c, looks).runs, |ActOn(c, first).runs|, cmd)
    decreases |looks|
  {
    if |first| == |looks| {
      assert first == looks;
    } else {
      var before := looks[..|looks| - 1];
      LooksRunOnly(c, first, before, cmd);
    }
  }

  lemma LookReadsTheCommand(start: Double, steps: seq<Step>, t: nat, d: Double)
    requires t < |steps| && steps[t].Tick? && StoreAfter(start, steps, t) == d && OneCommand(d)
    ensures var read := LookAt(start, steps, t).read;
            read.Some? && read.value.command != "" ==> read.value.command == TheCommand(d)
  {
    ReadsTheCommand(d, steps[t].query);
  }

  lemma {:induction false} OneCommandLooks(start: Double, steps: seq<Step>, a: nat, n: nat, d: Double, first: seq<Look>)
    requires a <= n <= |steps| && NothingKept(steps, a, n) && StoreAfter(start, steps, a) == d && OneCommand(d)
    requires first == Looks(start, steps, a)
    ensures first <= Looks(start, steps, n) && ReadOnly(Looks(start, steps, n), |first|, TheCommand(d))
    decreases n
  {
    if a < n {
      OneCommandLooks(start, steps, a, n - 1, d, first);
      if steps[n - 1].Tick? {
        StoreSince(start, steps, a, n - 1);
        LookReadsTheCommand(start, steps, n - 1, d);
      }
    }
  }

  lemma OneCommandRuns(c: Config, start: Double, steps: seq<Step>, a: nat, n: nat, d: Double)
    requires a <= n <= |steps| && NothingKept(steps, a, n) && StoreAfter(start, steps, a) == d && OneCommand(d)
    ensures AllOf(RunsAfter(c, start, steps, n), |RunsAfter(c, start, steps, a)|, TheCommand(d))
  {
    var first, looks := Looks(start, steps, a), Looks(start, steps, n);
    assert AllOf(ActOn(c, looks).runs, |ActOn(c, first).runs|, TheCommand(d)) by {
      OneCommandLooks(start, steps, a, n, d, first);
      LooksRunOnly(c, first, looks, TheCommand(d));
    }
    ActsAreOn(c, start, steps, a);
    ActsAreOn(c, start, steps, n);
  }

  /** While nothing is stored and the store has one command, that runs at most span / cooldown + 1 times in any span. */
  lemma OneCommandRate(c: Config, start: Double, steps: seq<Step>, a: nat, n: nat, i: nat, j: nat)
    requires a <= n <= |steps| && ClockRuns(steps) && NothingKept(steps, a, n)
    requires OneCommand(StoreAfter(start, steps, a))
    requires |RunsAfter(c, start, steps, a)| <= i <= j < |RunsAfter(c, start, steps, n)|
    ensures (j - i) * c.cooldown <= RunsAfter(c, start, steps, n)[j].at - RunsAfter(c, start, steps, n)[i].at
  {
    OneCommandRuns(c, start, steps, a, n, StoreAfter(start, steps, a));
    RepeatRate(c, start, steps, n, i, j);
  }

  /**
   Once a decision is stored, its row included, and for as long as nothing else is, commands run at most
   span / cooldown + 1 times in any span of time, however the queries end.
   */
  lemma UnchangedDecisionRate(c: Config, start: Double, steps: seq<Step>, a: nat, n: nat, i: nat, j: nat)
    requires a <= n <= |steps| && ClockRuns(steps) && NothingKept(steps, a, n)
    requires Latest(steps, a).Some? && steps[Latest(steps, a).value].cycleInserted
    requires |RunsAfter(c, start, steps, a)| <= i <= j < |RunsAfter(c, start, steps, n)|
    ensures (j - i) * c.cooldown <= RunsAfter(c, start, steps, n)[j].at - RunsAfter(c, start, steps, n)[i].at
  {
    InsertedSettles(start, steps, a);
    OneCommandRate(c, start, steps, a, n, i, j);
  }

  /** Every query between steps `a` and `n` ends alike. */
  ghost predicate SteadyQueries(steps: seq<Step>, a: nat, n: nat, q: Query)
    requires a <= n <= |steps|
  {
    forall j :: a <= j < n && steps[j].Tick? ==> steps[j].query == q
  }

  /** Every run from the `from`th on is of the record read. */
  ghost predicate AllRead(runs: seq<Run>, from: nat, read: Option<CycleRecord>) {
    forall k :: from <= k < |runs| ==> read == Some(runs[k].record)
  }

  lemma AllReadKept(c: Config, acts: Acts, read: Option<CycleRecord>, step: Step, from: nat)
    requires step.Tick? && AllRead(acts.runs, from, read)
    ensures AllRead(Observe(c, acts, read, step.snap, step.now, step.stamp).runs, from, read)
  {
  }

  lemma SteadyRead(start: Double, steps: seq<Step>, a: nat, n: nat, q: Query)
    requires a < n <= |steps| && NothingKept(steps, a, n) && SteadyQueries(steps, a, n, q) && steps[n - 1].Tick?
    ensures ReadAfter(start, steps, n - 1, steps[n - 1].query) == ReadAfter(start, steps, a, q)
  {
    StoreSince(start, steps, a, n - 1);
  }

  lemma {:induction false} SteadyRuns(
      c: Config, start: Double, steps: seq<Step>, a: nat, n: nat, q: Query, from: nat, read: Option<CycleRecord>)
    requires a <= n <= |steps| && NothingKept(steps, a, n) && SteadyQueries(steps, a, n, q)
    requires |RunsAfter(c, start, steps, a)| == from && ReadAfter(start, steps, a, q) == read
    ensures AllRead(RunsAfter(c, start, steps, n), from, read)
    decreases n
  {
    if a < n {
      SteadyRuns(c, start, steps, a, n - 1, q, from, read);
      var step := steps[n - 1];
      if step.Tick? {
        SteadyRead(start, steps, a, n, q);
        AllReadKept(c, ActsAfter(c, start, steps, n - 1), read, step, from);
      }
    }
  }

  /** Whatever the two stores hold, the same is true while nothing is stored and every query ends alike. */
  lemma SteadyReadsRate(c: Config, start: Double, steps: seq<Step>, a: nat, n: nat, q: Query, i: nat, j: nat)
    requires a <= n <= |steps| && ClockRuns(steps) && NothingKept(steps, a, n) && SteadyQueries(steps, a, n, q)
    requires |RunsAfter(c, start, steps, a)| <= i <= j < |RunsAfter(c, start, steps, n)|
    ensures (j - i) * c.cooldown <= RunsAfter(c, start, steps, n)[j].at - RunsAfter(c, start, steps, n)[i].at
  {
    SteadyRuns(c, start, steps, a, n, q, |RunsAfter(c, start, steps, a)|, ReadAfter(start, steps, a, q));
    RepeatRate(c, start, steps, n, i, j);
  }

  /**
   Any two runs of one command, from the `from`th run on, are a cooldown apart for every run from one to the other.
   */
  ghost predicate WithinRate(runs: seq<Run>, from: nat, cooldown: int) {
    forall i, j :: from <= i <= j < |runs| && runs[i].record.command == runs[j].record.command ==>
      (j - i) * cooldown <= runs[j].at - runs[i].at
  }

  /** The runs that `more` steps add keep to the rate. */
  ghost predicate KeepsRate(c: Config, start: Double, steps: seq<Step>, more: seq<Step>) {
    WithinRate(RunsAfter(c, start, steps + more, |steps| + |more|), |RunsAfter(c, start, steps, |steps|)|, c.cooldown)
  }

  /** Observations alone, of whatever metrics and with whatever queries. */
  ghost predicate Quiet(more: seq<Step>) {
    NothingKept(more, 0, |more|) && ClockRuns(more)
  }

  /** Metrics on which every trigger of the record still holds. */
  function HighEnough(r: CycleRecord): Snapshot {
    r.snapshot.(cpuPercent := r.triggerCPU, memPercent := r.triggerRAM, diskPercent := r.triggerDisk)
  }

  lemma HighEnoughExecutes(r: CycleRecord)
    ensures ShouldExecute(r, HighEnough(r))
  {
  }

  lemma RunAdded(c: Config, acts: Acts, r: CycleRecord, snap: Snapshot, now: int, stamp: int)
    requires Runs(c, acts.guard, Some(r), snap, now)
    ensures Observe(c, acts, Some(r), snap, now, stamp).runs == acts.runs + [Run(r, snap, stamp)]
    ensures Observe(c, acts, Some(r), snap, now, stamp).guard == Guard(r.command, Some(stamp))
  {
  }

  /** An observation at time `at` of a record whose triggers hold. */
  function Seen(c: Config, acts: Acts, r: CycleRecord, at: int): Acts {
    Observe(c, acts, Some(r), HighEnough(r), at, at)
  }

  lemma OtherSeen(c: Config, acts: Acts, r: CycleRecord, at: int)
    requires r.command != "" && Grants(acts.guard, c.cooldown, r.command, at)
    ensures Seen(c, acts, r, at).runs == acts.runs + [Run(r, HighEnough(r), at)]
    ensures Seen(c, acts, r, at).guard == Guard(r.command, Some(at))
  {
    HighEnoughExecutes(r);
    RunAdded(c, acts, r, HighEnough(r), at, at);
  }

  /** Two records with different commands, seen one, the other and the first again at one time, all run. */
  lemma ThreeSeen(c: Config, acts: Acts, r: CycleRecord, s: CycleRecord, at: int)
    requires r.command != s.command && r.command != "" && s.command != ""
    requires Grants(acts.guard, c.cooldown, r.command, at)
    ensures Seen(c, Seen(c, Seen(c, acts, r, at), s, at), r, at).runs
         == acts.runs + [Run(r, HighEnough(r), at), Run(s, HighEnough(s), at), Run(r, HighEnough(r), at)]
  {
    OtherSeen(c, acts, r, at);
    OtherSeen(c, Seen(c, acts, r, at), s, at);
    OtherSeen(c, Seen(c, Seen(c, acts, r, at), s, at), r, at);
  }

  /** Three observations at one time, of which the table answers the first and the last. */
  function Flicker(r: CycleRecord, s: CycleRecord, at: int): seq<Step> {
    var down := Query(true, {});
    [Tick(CLEAN, HighEnough(r), at, at), Tick(down, HighEnough(s), at, at), Tick(CLEAN, HighEnough(r), at, at)]
  }

  lemma FlickerReads(d: Double)
    requires d.secondary.cycles != [] && d.primary.cycles != []
    ensures Newest(d, CLEAN) == Some(d.secondary.cycles[|d.secondary.cycles| - 1])
    ensures Newest(d, Query(true, {})) == Some(d.primary.cycles[|d.primary.cycles| - 1])
  {
    NewestIs(d, CLEAN);
    NewestIs(d, Query(true, {}));
  }

  lemma ThreeMoreTicks(
      c: Config, start: Double, steps: seq<Step>, d: Double, acts: seq<Acts>, ticks: seq<Step>)
    requires |ticks| == 3 && |acts| == 4 && IsAt(c, start, steps, d, acts[0])
    requires forall k :: 0 <= k < 3 ==>
               && ticks[k].Tick?
               && acts[k + 1]
                  == Observe(c, acts[k], Newest(d, ticks[k].query), ticks[k].snap, ticks[k].now, ticks[k].stamp)
    ensures ActsAfter(c, start, steps + ticks, |steps| + 3) == acts[3]
  {
    var one, two := steps + [ticks[0]], steps + [ticks[0]] + [ticks[1]];
    OneMoreTick(c, start, steps, d, acts[0], ticks[0]);
    OneMoreTick(c, start, one, d, acts[1], ticks[1]);
    OneMoreTick(c, start, two, d, acts[2], ticks[2]);
    assert steps + ticks == two + [ticks[2]];
  }

  lemma FlickerSteps(c: Config, d: Double, acts: Acts, r: CycleRecord, s: CycleRecord, at: int) returns (all: seq<Acts>)
    requires Newest(d, CLEAN) == Some(r) && Newest(d, Query(true, {})) == Some(s)
    ensures |all| == 4 && all[0] == acts && all[3] == Seen(c, Seen(c, Seen(c, acts, r, at), s, at), r, at)
    ensures var ticks := Flicker(r, s, at);
            forall k :: 0 <= k < 3 ==>
              all[k + 1] == Observe(c, all[k], Newest(d, ticks[k].query), ticks[k].snap, ticks[k].now, ticks[k].stamp)
  {
    var first := Seen(c, acts, r, at);
    all := [acts, first, Seen(c, first, s, at), Seen(c, Seen(c, first, s, at), r, at)];
  }

  /** If the two stores end with different commands, a table that answers now and then makes both run at one time. */
  lemma FlickerRuns(
      c: Config, start: Double, steps: seq<Step>, d: Double, acts: Acts, r: CycleRecord, s: CycleRecord, at: int)
    requires IsAt(c, start, steps, d, acts)
    requires Newest(d, CLEAN) == Some(r) && Newest(d, Query(true, {})) == Some(s)
    requires r.command != s.command && r.command != "" && s.command != ""
    requires Grants(acts.guard, c.cooldown, r.command, at)
    ensures RunsAfter(c, start, steps + Flicker(r, s, at), |steps| + 3)
         == acts.runs + [Run(r, HighEnough(r), at), Run(s, HighEnough(s), at), Run(r, HighEnough(r), at)]
  {
    assert ActsAfter(c, start, steps + Flicker(r, s, at), |steps| + 3)
        == Seen(c, Seen(c, Seen(c, acts, r, at), s, at), r, at) by {
      var all := FlickerSteps(c, d, acts, r, s, at);
      ThreeMoreTicks(c, start, steps, d, all, Flicker(r, s, at));
    }
    ThreeSeen(c, acts, r, s, at);
  }

  lemma ThreeBreakRate(before: seq<Run>, runs: seq<Run>, cooldown: int)
    requires |runs| == 3 && cooldown > 0
    requires runs[0].record.command == runs[2].record.command && runs[0].at == runs[2].at
    ensures !WithinRate(before + runs, |before|, cooldown)
  {
    var all, i := before + runs, |before|;
    assert all[i] == runs[0] && all[i + 2] == runs[2];
    assert (i + 2 - i) * cooldown > all[i + 2].at - all[i].at;
  }

  lemma QuietAfter(steps: seq<Step>, more: seq<Step>)
    requires ClockRuns(steps) && Quiet(more)
    ensures ClockRuns(steps + more) && NothingKept(steps + more, |steps|, |steps| + |more|)
  {
    assert forall j :: |steps| <= j < |steps| + |more| ==> (steps + more)[j] == more[j - |steps|];
  }

  lemma OneCommandWithinRate(c: Config, start: Double, steps: seq<Step>, a: nat, n: nat, from: nat)
    requires a <= n <= |steps| && ClockRuns(steps) && NothingKept(steps, a, n)
    requires OneCommand(StoreAfter(start, steps, a)) && |RunsAfter(c, start, steps, a)| == from
    ensures WithinRate(RunsAfter(c, start, steps, n), from, c.cooldown)
  {
    var runs := RunsAfter(c, start, steps, n);
    forall i, j | from <= i <= j < |runs|
      ensures (j - i) * c.cooldown <= runs[j].at - runs[i].at
    {
      OneCommandRate(c, start, steps, a, n, i, j);
    }
  }

  lemma OneCommandKeepsRate(c: Config, start: Double, steps: seq<Step>, more: seq<Step>)
    requires ClockRuns(steps) && Quiet(more) && OneCommand(StoreAfter(start, steps, |steps|))
    ensures KeepsRate(c, start, steps, more)
  {
    var all, from := steps + more, |RunsAfter(c, start, steps, |steps|)|;
    SameStore(start, steps, more, |steps|);
    assert |RunsAfter(c, start, all, |steps|)| == from by {
      SameActs(c, start, steps, more, |steps|);
    }
    QuietAfter(steps, more);
    OneCommandWithinRate(c, start, all, |steps|, |steps| + |more|, from);
  }

  /** Three runs at one time, of one command, another one and the first again. */
  ghost predicate GoBackAndForth(runs: seq<Run>, cmd: string, other: string, at: int) {
    && |runs| == 3 && runs[0].at == runs[1].at == runs[2].at == at
    && runs[0].record.command == runs[2].record.command == cmd && runs[1].record.command == other
  }

  lemma FlickerGoesBackAndForth(
      c: Config, start: Double, steps: seq<Step>, d: Double, acts: Acts, r: CycleRecord, s: CycleRecord, at: int)
    returns (more: seq<Step>, runs: seq<Run>)
    requires IsAt(c, start, steps, d, acts)
    requires Newest(d, CLEAN) == Some(r) && Newest(d, Query(true, {})) == Some(s)
    requires r.command != s.command && r.command != "" && s.command != ""
    requires Grants(acts.guard, c.cooldown, r.command, at)
    ensures |more| == 3 && Quiet(more) && GoBackAndForth(runs, r.command, s.command, at)
    ensures RunsAfter(c, start, steps + more, |steps| + 3) == acts.runs + runs
  {
    more := Flicker(r, s, at);
    runs := [Run(r, HighEnough(r), at), Run(s, HighEnough(s), at), Run(r, HighEnough(r), at)];
    FlickerRuns(c, start, steps, d, acts, r, s, at);
  }

  /** A time at which the guard has nothing against any command. */
  function Later(c: Config, g: Guard): int {
    if g.lastExecAt.Some? then g.lastExecAt.value + c.cooldown else 0
  }

  lemma TwoCommandsGoBackAndForth(c: Config, start: Double, steps: seq<Step>, d: Double, acts: Acts)
    returns (more: seq<Step>, runs: seq<Run>, cmd: string, other: string, at: int)
    requires IsAt(c, start, steps, d, acts) && !OneCommand(d)
    ensures |more| == 3 && Quiet(more) && GoBackAndForth(runs, cmd, other, at)
    ensures RunsAfter(c, start, steps + more, |steps| + 3) == acts.runs + runs
  {
    FlickerReads(d);
    var r, s := d.secondary.cycles[|d.secondary.cycles| - 1], d.primary.cycles[|d.primary.cycles| - 1];
    cmd, other, at := r.command, s.command, Later(c, acts.guard);
    more, runs := FlickerGoesBackAndForth(c, start, steps, d, acts, r, s, at);
  }

  lemma TwoCommandsBreakRate(c: Config, start: Double, steps: seq<Step>) returns (more: seq<Step>)
    requires c.cooldown > 0 && !OneCommand(StoreAfter(start, steps, |steps|))
    ensures Quiet(more)
    ensures !KeepsRate(c, start, steps, more)
  {
    var acts := ActsAfter(c, start, steps, |steps|);
    var runs, cmd, other, at;
    more, runs, cmd, other, at := TwoCommandsGoBackAndForth(c, start, steps, StoreAfter(start, steps, |steps|), acts);
    ThreeBreakRate(acts.runs, runs, c.cooldown);
  }

  /**
   From any state of any run on, and however the queries end, no command exceeds its rate while nothing is stored if and
   only if the newest row and the primary's newest record do not carry two different commands.
   */
  lemma UnchangedRateIff(c: Config, start: Double, steps: seq<Step>)
    requires c.cooldown > 0 && ClockRuns(steps)
    ensures (forall more :: Quiet(more) ==> KeepsRate(c, start, steps, more))
       <==> OneCommand(StoreAfter(start, steps, |steps|))
  {
    if OneCommand(StoreAfter(start, steps, |steps|)) {
      forall more | Quiet(more)
        ensures KeepsRate(c, start, steps, more)
      {
        OneCommandKeepsRate(c, start, steps, more);
      }
    } else {
      var more := TwoCommandsBreakRate(c, start, steps);
    }
  }

  lemma TwoKept(r: CycleRecord, s: CycleRecord, first: Snapshot, second: Snapshot)
    returns (d: Double, r': CycleRecord, s': CycleRecord)
    ensures d == Kept(Kept(EMPTY, r, true, first, true), s, false, second, true)
    ensures Newest(d, CLEAN) == Some(r') && Newest(d, Query(true, {})) == Some(s')
    ensures r'.command == r.command && s'.command == s.command
  {
    KeptAdds(EMPTY, r, true, first, true);
    d := Kept(Kept(EMPTY, r, true, first, true), s, false, second, true);
    KeptAdds(Kept(EMPTY, r, true, first, true), s, false, second, true);
    r', s' := d.secondary.cycles[0], d.primary.cycles[1];
    FlickerReads(d);
  }

  lemma TwoKeptAt(c: Config, one: Step, two: Step)
    requires one.Keep? && one.cycleInserted && one.snapInserted && two.Keep? && !two.cycleInserted && two.snapInserted
    ensures IsAt(c, EMPTY, [one, two],
                 Kept(Kept(EMPTY, one.record, true, one.snap, true), two.record, false, two.snap, true), NOTHING_DONE)
  {
    OneMoreKeep(c, EMPTY, [], EMPTY, NOTHING_DONE, one);
    OneMoreKeep(c, EMPTY, [one], Kept(EMPTY, one.record, true, one.snap, true), NOTHING_DONE, two);
    assert [] + [one] == [one] && [one] + [two] == [one, two];
  }

  /**
   A decision with its row, one without, and three observations at one time run the first, the second and the first.
   */
  lemma UninsertedDecisionFlickers(c: Config, one: Step, two: Step, at: int) returns (more: seq<Step>)
    requires one.Keep? && one.cycleInserted && one.snapInserted && two.Keep? && !two.cycleInserted && two.snapInserted
    requires one.record.command != two.record.command && one.record.command != "" && two.record.command != ""
    ensures |more| == 3 && Quiet(more)
    ensures GoBackAndForth(RunsAfter(c, EMPTY, [one, two] + more, 5), one.record.command, two.record.command, at)
  {
    var d, r, s := TwoKept(one.record, two.record, one.snap, two.snap);
    var runs;
    assert IsAt(c, EMPTY, [one, two], d, NOTHING_DONE) by {
      TwoKeptAt(c, one, two);
    }
    more, runs := FlickerGoesBackAndForth(c, EMPTY, [one, two], d, NOTHING_DONE, r, s, at);
    assert NOTHING_DONE.runs + runs == runs;
  }

  // ----- what is announced

  /** A dry run publishes nothing; otherwise every run is announced once, in order, its command without outer blanks. */
  ghost predicate PublishedAre(c: Config, acts: Acts) {
    if c.dryRun then acts.published == []
    else
      && |acts.published| == |acts.runs|
      && forall k :: 0 <= k < |acts.runs| ==> acts.published[k] == TrimSpace(acts.runs[k].record.command)
  }

  lemma {:induction false} LooksKeepPublished(c: Config, looks: seq<Look>)
    ensures PublishedAre(c, ActOn(c, looks))
  {
    if looks != [] {
      LooksKeepPublished(c, looks[..|looks| - 1]);
    }
  }

  lemma {:induction false} PublishedRuns(c: Config, start: Double, steps: seq<Step>, n: nat)
    requires n <= |steps|
    ensures PublishedAre(c, ActsAfter(c, start, steps, n))
  {
    ActsAreOn(c, start, steps, n);
    LooksKeepPublished(c, Looks(start, steps, n));
  }

  // ----- from replies to commands

  /**
   What happens in the program: a decision cycle of the system agent, with the attempts of its model call (none when the
   breaker refused it) and the fates of its two inserts; or a snapshot observed while the orchestrator is busy or not.
   */
  datatype Turn =
    | Decide(call: Option<seq<Attempt>>, snap: Snapshot, cycleInserted: bool, snapInserted: bool)
    | Busy
    | Observed(query: Query, snap: Snapshot, now: int, stamp: int)

  function DecisionOf(call: Option<seq<Attempt>>, json: Json): Decision {
    match call
    case None => Fallback("circuit breaker open")
    case Some(script) => Returned(JudgeAll(script, json), 0, None).decision
  }

  function StepOf(turn: Turn, json: Json): Step {
    match turn
    case Decide(call, snap, cycleInserted, snapInserted) =>
      Keep(RecordOf(DecisionOf(call, json), snap), cycleInserted, snap, snapInserted)
    case Busy => Skip
    case Observed(query, snap, now, stamp) => Tick(query, snap, now, stamp)
  }

  function StepsOf(turns: seq<Turn>, json: Json): (steps: seq<Step>)
    ensures |steps| == |turns|
    ensures forall i :: 0 <= i < |turns| ==> steps[i] == StepOf(turns[i], json)
  {
    seq(|turns|, i requires 0 <= i < |turns| => StepOf(turns[i], json))
  }

  /**
   The safe decision is what the reply says, and the text it was judged by is no doubtful execute. If the reply as a
   whole is one all the same, then it has no analysis and the decision is that of the leftmost block inside it.
   */
  ghost predicate SoundOrigin(d: Decision, raw: string, json: Json) {
    && ParseDecision(raw, json) == Ok(d) && IsSafe(d)
    && Judged(raw, json).Some? && !SaysDoubtful(Judged(raw, json).value, json)
    && (SaysDoubtful(Clean(raw), json) ==> InnerDecides(raw, json))
  }

  /**
   A decision with a command is what the first acceptable reply of its own call says, and has a sound origin there.
   */
  lemma CommandHasSoundOrigin(call: Option<seq<Attempt>>, json: Json) returns (m: nat)
    requires DecisionOf(call, json).command != ""
    ensures call.Some? && Replied(call.value, m, DecisionOf(call, json), json)
    ensures SoundOrigin(DecisionOf(call, json), call.value[m].think.raw, json)
  {
    m := CallIsSafe(call.value, json);
    CommandIsSound(call.value[m].think.raw, json);
  }

  lemma CommandIsSound(raw: string, json: Json)
    requires YieldsCommand(raw, json)
    ensures SoundOrigin(ParseDecision(raw, json).decision, raw, json)
  {
    AcceptedReplyIsSafe(raw, json);
    if SaysDoubtful(Judged(raw, json).value, json) {
      DoubtfulExecuteIsDisarmed(raw, json);
    }
    if SaysDoubtful(Clean(raw), json) {
      DoubtfulReplyYieldsIff(raw, json);
    }
  }

  /** `r` records the decision of turn `i`. */
  ghost predicate DecidedBy(turns: seq<Turn>, r: CycleRecord, i: nat, json: Json) {
    i < |turns| && turns[i].Decide? && IsRecordOf(r, RecordOf(DecisionOf(turns[i].call, json), turns[i].snap))
  }

  /** Every command that ran, by what turn `t` observed, was in the store at the start or decided in an earlier turn. */
  lemma DecidedBefore(c: Config, json: Json, start: Double, turns: seq<Turn>, n: nat, k: nat) returns (t: nat, i: nat)
    requires n <= |turns| && k < |RunsAfter(c, start, StepsOf(turns, json), n)|
    ensures t < n && turns[t].Observed?
    ensures RanAt(c, start, StepsOf(turns, json), RunsAfter(c, start, StepsOf(turns, json), n)[k], k, t)
    ensures var r := RunsAfter(c, start, StepsOf(turns, json), n)[k].record;
            r.command != "" && (Holds(start, r) || (i < t && DecidedBy(turns, r, i, json)))
  {
    t, i := EveryRunIsJustified(c, start, StepsOf(turns, json), n, k);
  }

  /**
   In every run, a command that ran in turn `t` and was not in the store at the start is the one of reply `m` of the
   call in an earlier turn `i`, and the text that this reply was judged by does not say execute with a confidence absent
   or below 0.75. The reply as a whole says so only if it has no analysis and the command is that of a block inside it.
   */
  lemma DoubtfulRepliesNeverRun(c: Config, json: Json, start: Double, turns: seq<Turn>, n: nat, k: nat)
    returns (t: nat, i: nat, m: nat)
    requires n <= |turns| && k < |RunsAfter(c, start, StepsOf(turns, json), n)|
    ensures t < n && turns[t].Observed?
    ensures RanAt(c, start, StepsOf(turns, json), RunsAfter(c, start, StepsOf(turns, json), n)[k], k, t)
    ensures var r := RunsAfter(c, start, StepsOf(turns, json), n)[k].record;
            || Holds(start, r)
            || (&& i < t && DecidedBy(turns, r, i, json) && turns[i].call.Some?
                && Replied(turns[i].call.value, m, DecisionOf(turns[i].call, json), json)
                && SoundOrigin(DecisionOf(turns[i].call, json), turns[i].call.value[m].think.raw, json)
                && r.command == DecisionOf(turns[i].call, json).command
                && r.action == DecisionOf(turns[i].call, json).action
                && r.confidence == DecisionOf(turns[i].call, json).confidence)
  {
    t, i := DecidedBefore(c, json, start, turns, n, k);
    m := 0;
    var r := RunsAfter(c, start, StepsOf(turns, json), n)[k].record;
    if !Holds(start, r) {
      m := CommandHasSoundOrigin(turns[i].call, json);
    }
  }

  /** An execute decided in the run went ahead while the metrics it was decided on were at most five points lower. */
  lemma ExecutedWhileStillHigh(c: Config, json: Json, start: Double, turns: seq<Turn>, n: nat, k: nat)
    returns (t: nat, i: nat)
    requires n <= |turns| && k < |RunsAfter(c, start, StepsOf(turns, json), n)|
    requires RunsAfter(c, start, StepsOf(turns, json), n)[k].record.action == "execute"
    ensures t < n && turns[t].Observed?
    ensures RanAt(c, start, StepsOf(turns, json), RunsAfter(c, start, StepsOf(turns, json), n)[k], k, t)
    ensures var run := RunsAfter(c, start, StepsOf(turns, json), n)[k];
            || Holds(start, run.record)
            || (&& i < t && DecidedBy(turns, run.record, i, json)
                && StillHigh(turns[i].snap.cpuPercent, run.snap.cpuPercent)
                && StillHigh(turns[i].snap.memPercent, run.snap.memPercent)
                && StillHigh(turns[i].snap.diskPercent, run.snap.diskPercent))
  {
    t, i := DecidedBefore(c, json, start, turns, n, k);
    RunsWhileStillHigh(c, start, StepsOf(turns, json), n, k);
  }

  // ----- what can run besides confident executes

  lemma {:induction false} NoTicks(c: Config, start: Double, steps: seq<Step>, a: nat, n: nat)
    requires a <= n <= |steps|
    requires forall j :: a <= j < n ==> !steps[j].Tick?
    ensures ActsAfter(c, start, steps, n) == ActsAfter(c, start, steps, a)
    decreases n
  {
    if a < n {
      NoTicks(c, start, steps, a, n - 1);
    }
  }

  /** What a first observation runs: the command it reads, if there is one and the triggers still hold. */
  function FirstRuns(r: CycleRecord, snap: Snapshot, stamp: int): seq<Run> {
    if r.command != "" && ShouldExecute(r, snap) then [Run(r, snap, stamp)] else []
  }

  lemma FirstRun(c: Config, r: CycleRecord, snap: Snapshot, now: int, stamp: int)
    ensures Observe(c, NOTHING_DONE, Some(r), snap, now, stamp).runs == FirstRuns(r, snap, stamp)
  {
  }

  lemma FirstTick(c: Config, start: Double, steps: seq<Step>, t: nat)
    requires t < |steps| && steps[t].Tick?
    requires forall j :: 0 <= j < t ==> !steps[j].Tick?
    ensures RunsAfter(c, start, steps, t + 1)
         == Observe(c, NOTHING_DONE, ReadAfter(start, steps, t, steps[t].query),
                    steps[t].snap, steps[t].now, steps[t].stamp).runs
  {
    NoTicks(c, start, steps, 0, t);
  }

  /** The only tick of a run finds the guard free: it runs the command it reads if that record's triggers allow it. */
  lemma LoneTick(c: Config, start: Double, steps: seq<Step>, t: nat, r: CycleRecord)
    requires t < |steps| && steps[t].Tick?
    requires forall j :: 0 <= j < |steps| && j != t ==> !steps[j].Tick?
    requires ReadAfter(start, steps, t, steps[t].query) == Some(r)
    ensures RunsAfter(c, start, steps, |steps|) == FirstRuns(r, steps[t].snap, steps[t].stamp)
  {
    assert RunsAfter(c, start, steps, t + 1) == FirstRuns(r, steps[t].snap, steps[t].stamp) by {
      FirstTick(c, start, steps, t);
      FirstRun(c, r, steps[t].snap, steps[t].now, steps[t].stamp);
    }
    NoTicks(c, start, steps, t + 1, |steps|);
  }

  /** A record goes ahead exactly when the one it was stored from does, whatever columns it was read through. */
  lemma SameTriggers(r: CycleRecord, proposed: CycleRecord, current: Snapshot)
    requires IsRecordOf(r, proposed)
    ensures ShouldExecute(r, current) <==> ShouldExecute(proposed, current)
    ensures r.action == proposed.action && r.command == proposed.command
  {
  }

  /** A decision other than execute leaves no triggers to verify. */
  lemma OthersAreNotVerified(d: Decision, taken: Snapshot, current: Snapshot)
    requires d.action != "execute"
    ensures ShouldExecute(RecordOf(d, taken), current)
  {
  }

  lemma NextTick(c: Config, start: Double, steps: seq<Step>, i: nat) returns (r: CycleRecord)
    requires i + 1 < |steps| && steps[i].Keep? && steps[i + 1].Tick?
    requires forall j :: 0 <= j < |steps| && j != i + 1 ==> !steps[j].Tick?
    requires steps[i].cycleInserted || steps[i + 1].query.down
    ensures IsRecordOf(r, steps[i].record)
    ensures RunsAfter(c, start, steps, |steps|) == FirstRuns(r, steps[i + 1].snap, steps[i + 1].stamp)
  {
    ReadsLatest(start, steps, i + 1, steps[i + 1].query);
    r := ReadAfter(start, steps, i + 1, steps[i + 1].query).value;
    LoneTick(c, start, steps, i + 1, r);
  }

  /** The decision of turn `i` is what the only observation, right after it, reads and runs if its triggers hold. */
  lemma NextObservation(c: Config, json: Json, start: Double, turns: seq<Turn>, i: nat) returns (r: CycleRecord)
    requires i + 1 < |turns| && turns[i].Decide? && turns[i + 1].Observed?
    requires forall j :: 0 <= j < |turns| && j != i + 1 ==> !turns[j].Observed?
    requires turns[i].cycleInserted || turns[i + 1].query.down
    ensures IsRecordOf(r, RecordOf(DecisionOf(turns[i].call, json), turns[i].snap))
    ensures RunsAfter(c, start, StepsOf(turns, json), |turns|) == FirstRuns(r, turns[i + 1].snap, turns[i + 1].stamp)
  {
    r := NextTick(c, start, StepsOf(turns, json), i);
  }

  /** The command of a decision other than execute runs as soon as it is read, on whatever metrics. */
  lemma OtherActionRuns(c: Config, json: Json, start: Double, turns: seq<Turn>, i: nat)
    requires i + 1 < |turns| && turns[i].Decide? && turns[i + 1].Observed?
    requires forall j :: 0 <= j < |turns| && j != i + 1 ==> !turns[j].Observed?
    requires turns[i].cycleInserted || turns[i + 1].query.down
    requires DecisionOf(turns[i].call, json).action != "execute" && DecisionOf(turns[i].call, json).command != ""
    ensures var runs, d := RunsAfter(c, start, StepsOf(turns, json), |turns|), DecisionOf(turns[i].call, json);
            |runs| == 1 && runs[0].record.action == d.action && runs[0].record.command == d.command
  {
    var d := DecisionOf(turns[i].call, json);
    var r := NextObservation(c, json, start, turns, i);
    SameTriggers(r, RecordOf(d, turns[i].snap), turns[i + 1].snap);
    OthersAreNotVerified(d, turns[i].snap, turns[i + 1].snap);
  }

  /** One decision cycle with these attempts, then one observation, and nothing fails. */
  function OneDecision(script: seq<Attempt>, taken: Snapshot, snap: Snapshot, now: int, stamp: int): seq<Turn> {
    [Decide(Some(script), taken, true, true), Observed(CLEAN, snap, now, stamp)]
  }

  /**
   What one decision and one observation run: its command, if it has one and its triggers still hold, and else
   nothing.
   */
  lemma OneDecisionRuns(
      c: Config, json: Json, start: Double, script: seq<Attempt>, d: Decision,
      taken: Snapshot, snap: Snapshot, now: int, stamp: int)
    requires DecisionOf(Some(script), json) == d
    ensures var runs := RunsAfter(c, start, StepsOf(OneDecision(script, taken, snap, now, stamp), json), 2);
            if d.command != "" && ShouldExecute(RecordOf(d, taken), snap)
            then |runs| == 1 && runs[0].record.action == d.action && runs[0].record.command == d.command
            else runs == []
  {
    var r := NextObservation(c, json, start, OneDecision(script, taken, snap, now, stamp), 0);
    SameTriggers(r, RecordOf(d, taken), snap);
  }

  lemma Accepts(a: Attempt, raw: string, d: Decision, json: Json)
    requires !a.cancelled && a.think == Reply(raw) && ParseDecision(raw, json) == Ok(d)
    ensures Judge(a, json) == Accepted(d)
  {
  }

  lemma AcceptedAtOnce(tries: seq<Try>, d: Decision)
    requires tries != [] && tries[0].verdict == Accepted(d)
    ensures Returned(tries, 0, None).decision == d
  {
  }

  lemma SingleReply(script: seq<Attempt>, raw: string, d: Decision, json: Json)
    requires |script| == 1 && !script[0].cancelled && script[0].think == Reply(raw)
    requires ParseDecision(raw, json) == Ok(d)
    ensures DecisionOf(Some(script), json) == d
  {
    Accepts(script[0], raw, d, json);
    AcceptedAtOnce(JudgeAll(script, json), d);
  }

  /**
   Any reply that is accepted as something else than an execute and carries a command gets that command run by the next
   observation, whatever its confidence and whatever the metrics are then.
   */
  lemma NonExecuteCommandRuns(
      c: Config, json: Json, start: Double, script: seq<Attempt>, raw: string, d: Decision,
      taken: Snapshot, snap: Snapshot, now: int, stamp: int)
    requires |script| == 1 && !script[0].cancelled && script[0].think == Reply(raw)
    requires ParseDecision(raw, json) == Ok(d) && d.action != "execute" && d.command != ""
    ensures var runs := RunsAfter(c, start, StepsOf(OneDecision(script, taken, snap, now, stamp), json), 2);
            |runs| == 1 && runs[0].record.action == d.action && runs[0].record.command == d.command
  {
    SingleReply(script, raw, d, json);
    OthersAreNotVerified(d, taken, snap);
    OneDecisionRuns(c, json, start, script, d, taken, snap, now, stamp);
  }

  lemma UnparseableAtOnce(tries: seq<Try>)
    requires |tries| == 1 && tries[0].verdict.Unparseable?
    ensures Returned(tries, 0, None).decision.command == ""
  {
  }

  lemma SingleUnparseable(script: seq<Attempt>, raw: string, json: Json)
    requires |script| == 1 && !script[0].cancelled && script[0].think == Reply(raw)
    requires ParseDecision(raw, json).Err?
    ensures DecisionOf(Some(script), json).command == ""
  {
    UnparseableAtOnce(JudgeAll(script, json));
  }

  lemma JustDecidedHolds(d: Decision, taken: Snapshot)
    ensures ShouldExecute(RecordOf(d, taken), taken)
  {
  }

  /**
   A reply that says execute with a confidence absent or below 0.75 as a whole gets a command run, by the next
   observation and on the metrics it was decided on, if and only if it has no analysis and the leftmost block that
   decodes inside it is a valid decision with a command and no doubtful execute.
   */
  lemma DoubtfulReplyRunsIff(
      c: Config, json: Json, start: Double, script: seq<Attempt>, raw: string, taken: Snapshot, now: int, stamp: int)
    requires |script| == 1 && !script[0].cancelled && script[0].think == Reply(raw) && SaysDoubtful(Clean(raw), json)
    ensures RunsAfter(c, start, StepsOf(OneDecision(script, taken, taken, now, stamp), json), 2) != []
       <==> InnerDecides(raw, json)
  {
    DoubtfulReplyYieldsIff(raw, json);
    var d := DecisionOf(Some(script), json);
    if ParseDecision(raw, json).Ok? {
      SingleReply(script, raw, ParseDecision(raw, json).decision, json);
    } else {
      SingleUnparseable(script, raw, json);
    }
    JustDecidedHolds(d, taken);
    OneDecisionRuns(c, json, start, script, d, taken, taken, now, stamp);
  }

  /**
   Such a reply: an object without an analysis, a doubtful execute or anything else, around another one that is a valid
   decision. The command of the inner one runs.
   */
  lemma NestedDecisionRuns(
      c: Config, json: Json, start: Double, script: seq<Attempt>, raw: string, text: string, i: nat, j: nat,
      taken: Snapshot, now: int, stamp: int)
    requires |script| == 1 && !script[0].cancelled && script[0].think == Reply(raw)
    requires Nests(raw, text, i, j) && json.isObject(text) && HasSafeCommand(text, json)
    requires json.decode(raw).Some? && !HasText(json.decode(raw).value.analysis)
    ensures var runs := RunsAfter(c, start, StepsOf(OneDecision(script, taken, taken, now, stamp), json), 2);
            |runs| == 1 && runs[0].record.command == json.decode(text).value.command
  {
    var d := DecisionOf(Some(script), json);
    assert d.command == json.decode(text).value.command by {
      NestedReplyYields(raw, text, i, j, json);
      SingleReply(script, raw, ParseDecision(raw, json).decision, json);
    }
    JustDecidedHolds(d, taken);
    OneDecisionRuns(c, json, start, script, d, taken, taken, now, stamp);
  }

  /** The decision cycles among some turns, in order. */
  function Decisions(turns: seq<Turn>): (decisions: seq<Turn>)
    ensures forall i :: 0 <= i < |decisions| ==> decisions[i].Decide?
  {
    if turns == [] then []
    else Decisions(turns[..|turns| - 1]) + if turns[|turns| - 1].Decide? then [turns[|turns| - 1]] else []
  }

  lemma {:induction false} DecisionIsListed(turns: seq<Turn>, i: nat) returns (at: nat)
    requires i < |turns| && turns[i].Decide?
    ensures at < |Decisions(turns)| && Decisions(turns)[at] == turns[i]
  {
    if i == |turns| - 1 {
      at := |Decisions(turns)| - 1;
    } else {
      at := DecisionIsListed(turns[..|turns| - 1], i);
    }
  }

  lemma {:induction false} DecisionsConcat(a: seq<Turn>, b: seq<Turn>)
    ensures Decisions(a + b) == Decisions(a) + Decisions(b)
  {
    if b == [] {
      assert a + b == a;
    } else {
      DecisionsConcat(a, b[..|b| - 1]);
      assert (a + b)[..|a + b| - 1] == a + b[..|b| - 1];
    }
  }

  lemma {:induction false} DecisionsOnly(decisions: seq<Turn>)
    requires forall i :: 0 <= i < |decisions| ==> decisions[i].Decide?
    ensures Decisions(decisions) == decisions
  {
    if decisions != [] {
      DecisionsOnly(decisions[..|decisions| - 1]);
    }
  }

  /** Starting with nothing stored, every command these turns run belongs to an execute. */
  ghost predicate OnlyExecutes(c: Config, json: Json, turns: seq<Turn>) {
    forall k :: 0 <= k < |RunsAfter(c, EMPTY, StepsOf(turns, json), |turns|)| ==>
      RunsAfter(c, EMPTY, StepsOf(turns, json), |turns|)[k].record.action == "execute"
  }

  ghost predicate CannotMisfire(turn: Turn, json: Json)
    requires turn.Decide?
  {
    DecisionOf(turn.call, json).action == "execute" || DecisionOf(turn.call, json).command == ""
  }

  lemma HarmlessDecisions(c: Config, json: Json, turns: seq<Turn>)
    requires forall i :: 0 <= i < |Decisions(turns)| ==> CannotMisfire(Decisions(turns)[i], json)
    ensures OnlyExecutes(c, json, turns)
  {
    forall k | 0 <= k < |RunsAfter(c, EMPTY, StepsOf(turns, json), |turns|)|
      ensures RunsAfter(c, EMPTY, StepsOf(turns, json), |turns|)[k].record.action == "execute"
    {
      var t, i := DecidedBefore(c, json, EMPTY, turns, |turns|, k);
      var at := DecisionIsListed(turns, i);
    }
  }

  lemma LookInserted(decisions: seq<Turn>, i: nat, look: Turn)
    requires forall j :: 0 <= j < |decisions| ==> decisions[j].Decide?
    requires i < |decisions| && !look.Decide?
    ensures Decisions(decisions[..i + 1] + [look] + decisions[i + 1..]) == decisions
  {
    var first, rest := decisions[..i + 1], decisions[i + 1..];
    DecisionsConcat(first + [look], rest);
    DecisionsConcat(first, [look]);
    DecisionsOnly(first);
    DecisionsOnly(rest);
    assert first + rest == decisions;
  }

  lemma MisfiringDecision(c: Config, json: Json, decisions: seq<Turn>, i: nat) returns (turns: seq<Turn>)
    requires forall j :: 0 <= j < |decisions| ==> decisions[j].Decide?
    requires i < |decisions| && !CannotMisfire(decisions[i], json)
    ensures Decisions(turns) == decisions && !OnlyExecutes(c, json, turns)
  {
    var look := Observed(if decisions[i].cycleInserted then CLEAN else Query(true, {}), decisions[i].snap, 0, 0);
    turns := decisions[..i + 1] + [look] + decisions[i + 1..];
    assert !OnlyExecutes(c, json, turns) by {
      OtherActionRuns(c, json, EMPTY, turns, i);
    }
    LookInserted(decisions, i, look);
  }

  /**
   Whatever is observed around some decisions, only executes ever run if and only if every other decision among them
   has no command: the implementation looks at the command and not at the action.
   */
  lemma OnlyExecutesRunIff(c: Config, json: Json, decisions: seq<Turn>)
    requires forall i :: 0 <= i < |decisions| ==> decisions[i].Decide?
    ensures (forall turns :: Decisions(turns) == decisions ==> OnlyExecutes(c, json, turns))
       <==> forall i :: 0 <= i < |decisions| ==> CannotMisfire(decisions[i], json)
  {
    if forall i :: 0 <= i < |decisions| ==> CannotMisfire(decisions[i], json) {
      forall turns | Decisions(turns) == decisions
        ensures OnlyExecutes(c, json, turns)
      {
        HarmlessDecisions(c, json, turns);
      }
    } else {
      var i :| 0 <= i < |decisions| && !CannotMisfire(decisions[i], json);
      var turns := MisfiringDecision(c, json, decisions, i);
    }
  }

  // ----- two commands in turn

  /**
   Rounds of a decision and an observation, the last decision by call `a`, the one before by `b`, while no time
   passes.
   */
  function Alternating(a: seq<Attempt>, b: seq<Attempt>, snap: Snapshot, at: int, rounds: nat): (turns: seq<Turn>)
    ensures |turns| == 2 * rounds
    decreases rounds
  {
    if rounds == 0 then []
    else Alternating(b, a, snap, at, rounds - 1) + [Decide(Some(a), snap, true, true), Observed(CLEAN, snap, at, at)]
  }

  /** Some runs at one time, each of one of these commands and of another one than the run before it. */
  ghost predicate Alternate(runs: seq<Run>, cmds: set<string>, at: int) {
    && (forall k :: 0 <= k < |runs| ==> runs[k].at == at && runs[k].record.command in cmds)
    && (forall k :: 0 < k < |runs| ==> runs[k].record.command != runs[k - 1].record.command)
  }

  /** There are `n` runs, the last of them of this command. */
  ghost predicate EndIn(runs: seq<Run>, n: nat, cmd: string) {
    |runs| == n && (n > 0 ==> runs[n - 1].record.command == cmd)
  }

  /** Observations at one time of records with the commands `cmd`, `other`, `cmd`, ... from the last to the first. */
  ghost predicate TakeTurns(looks: seq<Look>, cmd: string, other: string, at: int) {
    || looks == []
    || (var last := looks[|looks| - 1];
        && last.read.Some? && last.read.value.command == cmd && ShouldExecute(last.read.value, last.snap)
        && last.now == last.stamp == at
        && TakeTurns(looks[..|looks| - 1], other, cmd, at))
  }

  lemma {:induction false} TurnsAllRun(
      c: Config, looks: seq<Look>, cmd: string, other: string, cmds: set<string>, at: int)
    requires cmd != other && cmd != "" && other != "" && cmd in cmds && other in cmds
    requires TakeTurns(looks, cmd, other, at)
    ensures Alternate(ActOn(c, looks).runs, cmds, at) && EndIn(ActOn(c, looks).runs, |looks|, cmd)
    decreases |looks|
  {
    if looks != [] {
      var before, last := looks[..|looks| - 1], looks[|looks| - 1];
      TurnsAllRun(c, before, other, cmd, cmds, at);
      LooksKeepGuard(c, before);
    }
  }

  lemma JustKeptIsRead(start: Double, steps: seq<Step>, t: nat) returns (r: CycleRecord)
    requires t < |steps| && steps[t].Keep? && steps[t].cycleInserted
    ensures ReadAfter(start, steps, t + 1, CLEAN) == Some(r) && IsRecordOf(r, steps[t].record)
  {
    ReadsLatest(start, steps, t + 1, CLEAN);
    r := ReadAfter(start, steps, t + 1, CLEAN).value;
  }

  /** The last two of `n` steps store the record of this decision and observe, and nothing fails. */
  ghost predicate IsRound(steps: seq<Step>, n: nat, d: Decision, snap: Snapshot, at: int) {
    && 2 <= n <= |steps|
    && steps[n - 1] == Tick(CLEAN, snap, at, at)
    && steps[n - 2].Keep? && steps[n - 2].cycleInserted && steps[n - 2].record == RecordOf(d, snap)
  }

  /** A round makes the orchestrator observe the record it just stored. */
  lemma RoundObserves(c: Config, start: Double, steps: seq<Step>, n: nat, d: Decision, snap: Snapshot, at: int)
    returns (r: CycleRecord)
    requires IsRound(steps, n, d, snap, at)
    ensures r.command == d.command && ShouldExecute(r, snap)
    ensures ActsAfter(c, start, steps, n) == Observe(c, ActsAfter(c, start, steps, n - 2), Some(r), snap, at, at)
  {
    r := JustKeptIsRead(start, steps, n - 2);
    assert ActsAfter(c, start, steps, n - 1) == ActsAfter(c, start, steps, n - 2);
  }

  /** The first `n` steps are rounds of two decisions in turn, the last of them of `d`. */
  ghost predicate InTurn(steps: seq<Step>, d: Decision, other: Decision, snap: Snapshot, at: int, n: nat)
    decreases n
  {
    n == 0 || (IsRound(steps, n, d, snap, at) && InTurn(steps, other, d, snap, at, n - 2))
  }

  lemma {:induction false} Rounds(
      c: Config, start: Double, steps: seq<Step>, d: Decision, other: Decision, snap: Snapshot, at: int, n: nat)
    returns (looks: seq<Look>)
    requires n <= |steps| && InTurn(steps, d, other, snap, at, n)
    ensures 2 * |looks| == n && TakeTurns(looks, d.command, other.command, at)
    ensures ActsAfter(c, start, steps, n) == ActOn(c, looks)
    decreases n
  {
    if n == 0 {
      return [];
    }
    var before := Rounds(c, start, steps, other, d, snap, at, n - 2);
    var r := RoundObserves(c, start, steps, n, d, snap, at);
    looks := before + [Look(Some(r), snap, at, at)];
    OneMoreLook(c, before, Look(Some(r), snap, at, at));
    assert looks[..|looks| - 1] == before;
  }

  /** The first `n` turns are rounds of two calls in turn, the last of them `a`. */
  ghost predicate TurnsInTurn(turns: seq<Turn>, a: seq<Attempt>, b: seq<Attempt>, snap: Snapshot, at: int, n: nat)
    decreases n
  {
    || n == 0
    || (&& 2 <= n <= |turns|
        && turns[n - 2] == Decide(Some(a), snap, true, true) && turns[n - 1] == Observed(CLEAN, snap, at, at)
        && TurnsInTurn(turns, b, a, snap, at, n - 2))
  }

  lemma {:induction false} MoreTurns(
      turns: seq<Turn>, more: seq<Turn>, a: seq<Attempt>, b: seq<Attempt>, snap: Snapshot, at: int, n: nat)
    requires n <= |turns| && TurnsInTurn(turns, a, b, snap, at, n)
    ensures TurnsInTurn(turns + more, a, b, snap, at, n)
    decreases n
  {
    if n > 0 {
      MoreTurns(turns, more, b, a, snap, at, n - 2);
    }
  }

  lemma {:induction false} AlternatingIsInTurn(a: seq<Attempt>, b: seq<Attempt>, snap: Snapshot, at: int, rounds: nat)
    ensures TurnsInTurn(Alternating(a, b, snap, at, rounds), a, b, snap, at, 2 * rounds)
    decreases rounds
  {
    if rounds > 0 {
      AlternatingIsInTurn(b, a, snap, at, rounds - 1);
      var before := Alternating(b, a, snap, at, rounds - 1);
      var round := [Decide(Some(a), snap, true, true), Observed(CLEAN, snap, at, at)];
      MoreTurns(before, round, b, a, snap, at, 2 * rounds - 2);
    }
  }

  lemma RoundOf(
      turns: seq<Turn>, steps: seq<Step>, a: seq<Attempt>, d: Decision, snap: Snapshot, at: int, n: nat, json: Json)
    requires 2 <= n <= |turns| && steps == StepsOf(turns, json) && d == DecisionOf(Some(a), json)
    requires turns[n - 2] == Decide(Some(a), snap, true, true) && turns[n - 1] == Observed(CLEAN, snap, at, at)
    ensures IsRound(steps, n, d, snap, at)
  {
  }

  /** Wherever call `a` has a round among the turns, decision `d` has one among the steps. */
  ghost predicate Performs(turns: seq<Turn>, steps: seq<Step>, a: seq<Attempt>, d: Decision, snap: Snapshot, at: int) {
    forall n :: 2 <= n <= |turns| && turns[n - 2] == Decide(Some(a), snap, true, true)
                && turns[n - 1] == Observed(CLEAN, snap, at, at) ==>
      IsRound(steps, n, d, snap, at)
  }

  lemma StepsPerform(turns: seq<Turn>, json: Json, a: seq<Attempt>, d: Decision, snap: Snapshot, at: int)
    requires d == DecisionOf(Some(a), json)
    ensures Performs(turns, StepsOf(turns, json), a, d, snap, at)
  {
    forall n | 2 <= n <= |turns| && turns[n - 2] == Decide(Some(a), snap, true, true)
               && turns[n - 1] == Observed(CLEAN, snap, at, at)
      ensures IsRound(StepsOf(turns, json), n, d, snap, at)
    {
      RoundOf(turns, StepsOf(turns, json), a, d, snap, at, n, json);
    }
  }

  lemma {:induction false} StepsInTurn(
      turns: seq<Turn>, steps: seq<Step>, a: seq<Attempt>, b: seq<Attempt>, da: Decision, db: Decision,
      snap: Snapshot, at: int, n: nat)
    requires n <= |turns| && TurnsInTurn(turns, a, b, snap, at, n)
    requires Performs(turns, steps, a, da, snap, at) && Performs(turns, steps, b, db, snap, at)
    ensures InTurn(steps, da, db, snap, at, n)
    decreases n
  {
    if n > 0 {
      StepsInTurn(turns, steps, b, a, db, da, snap, at, n - 2);
      assert IsRound(steps, n, da, snap, at);
    }
  }

  /**
   The guard remembers one command only: two commands that are decided in turn run any number of times without any time
   passing, whatever the cooldown.
   */
  lemma AlternationIsNotLimited(
      c: Config, json: Json, start: Double, a: seq<Attempt>, b: seq<Attempt>, da: Decision, db: Decision,
      snap: Snapshot, at: int, rounds: nat)
    requires da == DecisionOf(Some(a), json) && db == DecisionOf(Some(b), json)
    requires da.command != db.command && da.command != "" && db.command != ""
    ensures var runs := RunsAfter(c, start, StepsOf(Alternating(a, b, snap, at, rounds), json), 2 * rounds);
            |runs| == rounds && Alternate(runs, {da.command, db.command}, at)
  {
    AlternatingIsInTurn(a, b, snap, at, rounds);
    var turns := Alternating(a, b, snap, at, rounds);
    StepsPerform(turns, json, a, da, snap, at);
    StepsPerform(turns, json, b, db, snap, at);
    StepsInTurn(turns, StepsOf(turns, json), a, b, da, db, snap, at, 2 * rounds);
    var looks := Rounds(c, start, StepsOf(turns, json), da, db, snap, at, 2 * rounds);
    TurnsAllRun(c, looks, da.command, db.command, {da.command, db.command}, at);
  }

  // ----- the objects of the implementation

  class ExecuteGuard {
    const cooldown: int
    var lastCmd: string
    var lastExecAt: Option<int>

    ghost function View(): Guard
      reads this
    {
      Guard(lastCmd, lastExecAt)
    }

    constructor (cooldown: int)
      ensures View() == NO_GRANT && this.cooldown == cooldown
    {
      this.cooldown := cooldown;
      lastCmd, lastExecAt := "", None;
    }

    /** The clock is read once for the check and again for the stamp. */
    method Allow(cmd: string, now: int, stamp: int) returns (ok: bool)
      modifies this
      ensures ok <==> Grants(old(View()), cooldown, cmd, now)
      ensures ok <==> cmd != old(lastCmd) || old(lastExecAt).None? || now - old(lastExecAt).value >= cooldown
      ensures View() == if ok then Guard(cmd, Some(stamp)) else old(View())
    {
      if cmd == lastCmd && lastExecAt.Some? && now - lastExecAt.value < cooldown {
        return false;
      }
      lastCmd := cmd;
      lastExecAt := Some(stamp);
      return true;
    }

    /** How long the last command would still be refused: never negative, and nothing before the first grant. */
    method CooldownRemaining(now: int) returns (left: int)
      ensures left >= 0
      ensures lastExecAt.None? ==> left == 0
      ensures lastExecAt.Some? ==>
                forall later :: later >= now ==> (Grants(View(), cooldown, lastCmd, later) <==> later - now >= left)
    {
      if lastExecAt.None? {
        return 0;
      }
      var elapsed := now - lastExecAt.value;
      if elapsed >= cooldown {
        return 0;
      }
      return cooldown - elapsed;
    }
  }

  datatype CommandResult = CommandResult(command: string, simulated: bool)

  /** The result of the last run, real or simulated. */
  function ResultOf(c: Config, runs: seq<Run>): Option<CommandResult> {
    if runs == [] then None else Some(CommandResult(TrimSpace(runs[|runs| - 1].record.command), c.dryRun))
  }

  /**
   The orchestrator, over a store that it shares with the system agent; `steps` is everything that happened to both.
   */
  class Orchestrator {
    const config: Config
    const guard: ExecuteGuard
    const state: DoubleWriteStore
    var lastSnap: Option<Snapshot>
    var lastResult: Option<CommandResult>
    var published: seq<string>
    ghost const start: Double
    ghost var steps: seq<Step>

    ghost function Acted(): Acts
      reads this
    {
      ActsAfter(config, start, steps, |steps|)
    }

    ghost predicate Valid()
      reads this, guard, state.primary, state.secondary
    {
      && guard.cooldown == config.cooldown
      && state.View() == StoreAfter(start, steps, |steps|)
      && guard.View() == Acted().guard
      && published == Acted().published
      && lastResult == ResultOf(config, Acted().runs)
    }

    constructor (config: Config, state: DoubleWriteStore)
      ensures Valid() && fresh(guard) && this.config == config && this.state == state
      ensures start == state.View() && steps == []
    {
      this.config, this.state := config, state;
      guard := new ExecuteGuard(config.cooldown);
      lastSnap, lastResult, published := None, None, [];
      start, steps := state.View(), [];
    }

    /** The record read back for an observation, if there is any. */
    method LastCycle(query: Query) returns (cycle: Option<CycleRecord>)
      ensures cycle == Newest(state.View(), query)
    {
      var cycles := state.LastCycles(1, query);
      cycle := if |cycles| > 0 then Some(cycles[0]) else None;
    }

    /** One observation: ignored while the previous one is being handled; else it may run the stored command. */
    method HandleObserved(busy: bool, query: Query, snap: Snapshot, now: int, stamp: int)
      requires Valid()
      modifies this, guard
      ensures Valid() && steps == old(steps) + [if busy then Skip else Tick(query, snap, now, stamp)]
      ensures lastSnap == if busy then old(lastSnap) else Some(snap)
      ensures var read := Newest(old(state.View()), query);
              var runs := !busy && Runs(config, old(guard.View()), read, snap, now);
              && guard.View() == (if runs then Guard(read.value.command, Some(stamp)) else old(guard.View()))
              && lastResult == (if runs then Some(CommandResult(TrimSpace(read.value.command), config.dryRun))
                                else old(lastResult))
              && published == (if runs && !config.dryRun then old(published) + [TrimSpace(read.value.command)]
                               else old(published))
    {
      ghost var d, acts := state.View(), Acted();
      if busy {
        OneMoreSkip(config, start, steps, d, acts);
        steps := steps + [Skip];
        return;
      }
      OneMoreTick(config, start, steps, d, acts, Tick(query, snap, now, stamp));
      steps := steps + [Tick(query, snap, now, stamp)];
      lastSnap := Some(snap);
      var cycle := LastCycle(query);
      if cycle.Some? && cycle.value.command != "" {
        var cmd := cycle.value.command;
        if ShouldExecute(cycle.value, snap) {
          var allowed := guard.Allow(cmd, now, stamp);
          if allowed {
            if config.dryRun {
              lastResult := Some(CommandResult(TrimSpace(cmd), true));
            } else {
              lastResult := Some(CommandResult(TrimSpace(cmd), false));
              published := published + [TrimSpace(cmd)];
            }
          }
        }
      }
    }
  }

  class SystemAgent {
    const circuit: Breakers.CircuitBreaker

    constructor (circuit: Breakers.CircuitBreaker)
      ensures this.circuit == circuit
    {
      this.circuit := circuit;
    }

    /** Stores a decision and then the snapshot it was taken on; only an execute remembers what triggered it. */
    method Remember(o: Orchestrator, decision: Decision, snap: Snapshot, cycleInserted: bool, snapInserted: bool)
      requires o.Valid()
      modifies o`steps, o.state.primary, o.state.secondary
      ensures o.Valid()
      ensures o.steps == old(o.steps) + [Keep(RecordOf(decision, snap), cycleInserted, snap, snapInserted)]
      ensures IsFilled(RecordOf(decision, snap), decision, snap)
    {
      ghost var d, acts := o.state.View(), o.Acted();
      var record := NewCycleRecord(snap, decision.action, decision.analysis, decision.reason, decision.command);
      record := record.(confidence := decision.confidence);
      if decision.action == "execute" {
        record := record.(triggerCPU := snap.cpuPercent);
        record := record.(triggerRAM := snap.memPercent);
        record := record.(triggerDisk := snap.diskPercent);
      }
      ghost var keep := Keep(record, cycleInserted, snap, snapInserted);
      OneMoreKeep(o.config, o.start, o.steps, d, acts, keep);
      o.state.AddCycle(record, cycleInserted);
      o.state.Add(snap, snapInserted);
      o.steps := o.steps + [keep];
    }

    /** A decision cycle: asks the model and stores what was decided, whatever came of the call. */
    method Run(
        o: Orchestrator, script: seq<Attempt>, json: Json, now: int, endAt: int, snap: Snapshot,
        cycleInserted: bool, snapInserted: bool)
      returns (r: Outcome)
      requires o.Valid()
      modifies circuit, o`steps, o.state.primary, o.state.secondary
      ensures var call := if Breakers.Admits(circuit.config, old(circuit.View()), now) then Some(script) else None;
              && o.Valid() && o.steps == old(o.steps) + [StepOf(Decide(call, snap, cycleInserted, snapInserted), json)]
              && r.decision == DecisionOf(call, json)
      ensures circuit.View() == AfterCall(circuit.config, old(circuit.View()), Call(now, script, endAt), json)
    {
      r := ThinkWithDecision(circuit, script, json, now, endAt);
      Remember(o, r.decision, snap, cycleInserted, snapInserted);
    }
  }
}
