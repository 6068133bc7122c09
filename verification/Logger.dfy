/** The append-only metrics log, rotated through numbered backups, with any of its file operations failing. */
module Logs {
  import opened Options
  import opened Sequences

  /** One encoded line of the log and its length in bytes. */
  datatype Entry = Entry(id: nat, size: nat)

  /** The log file itself, or the backup `<file>.<index>`. */
  datatype FileName = Current | Backup(index: int)

  type Files = map<FileName, seq<Entry>>

  function Size(entries: seq<Entry>): nat {
    if entries == [] then 0 else Size(entries[..|entries| - 1]) + entries[|entries| - 1].size
  }

  function Find(files: Files, f: FileName): Option<seq<Entry>> {
    if f in files then Some(files[f]) else None
  }

  function Content(files: Files, f: FileName): seq<Entry> {
    if f in files then files[f] else []
  }

  /** Renaming replaces the destination; a missing source changes nothing. */
  function Rename(files: Files, src: FileName, dst: FileName): Files {
    if src in files then (files - {src})[dst := files[src]] else files
  }

  /**
   What goes wrong in one write before the file is opened: its stat, the removal of the oldest backup, the renames of
   some backups, the archiving of the current file. The errors of the removal and of those renames are ignored.
   */
  datatype Faults = Faults(stat: bool, remove: bool, renames: set<int>, archive: bool)

  const NO_FAULTS: Faults := Faults(false, false, {}, false)

  /** The renames of backups `i`, `i - 1`, ..., 1, each to the next index, in that order, less those that fail. */
  function Shift(files: Files, i: int, failing: set<int>): Files
    decreases if i < 1 then 0 else i
  {
    if i < 1 then files
    else Shift(if i in failing then files else Rename(files, Backup(i), Backup(i + 1)), i - 1, failing)
  }

  function Removed(files: Files, maxBackups: int, f: Faults): Files {
    if f.remove then files else files - {Backup(maxBackups)}
  }

  /** Everything a rotation does before it archives the current file. */
  function Shifted(files: Files, maxBackups: int, f: Faults): Files {
    Shift(Removed(files, maxBackups, f), maxBackups - 1, f.renames)
  }

  function Rotated(files: Files, maxBackups: int, f: Faults): Files {
    var shifted := Shifted(files, maxBackups, f);
    if f.archive then shifted else Rename(shifted, Current, Backup(1))
  }

  /** How many backups a limit really allows: the implementation keeps one even when asked for none. */
  function Slots(maxBackups: int): nat {
    if maxBackups < 1 then 1 else maxBackups
  }

  /** Backups `k`, ..., 1 and then the current file, read in that order. */
  function Chain(files: Files, k: nat): seq<Entry> {
    if k == 0 then Content(files, Current) else Content(files, Backup(k)) + Chain(files, k - 1)
  }

  // ----- what a rotation does to each file

  /** Backup `k` moves up: it exists, the loop comes by and its rename succeeds. */
  predicate Moves(files: Files, i: int, failing: set<int>, k: int) {
    1 <= k <= i && k !in failing && Backup(k) in files
  }

  /** What is found at index `k` after the renames: the backup below if that moves up, else what was there and stays. */
  function FoundAt(files: Files, i: int, failing: set<int>, k: int): Option<seq<Entry>> {
    if Moves(files, i, failing, k - 1) then Find(files, Backup(k - 1))
    else if Moves(files, i, failing, k) then None
    else Find(files, Backup(k))
  }

  lemma {:induction false} ShiftFinds(files: Files, i: int, failing: set<int>, k: int)
    ensures Find(Shift(files, i, failing), Backup(k)) == FoundAt(files, i, failing, k)
    ensures Find(Shift(files, i, failing), Current) == Find(files, Current)
    decreases if i < 1 then 0 else i
  {
    if i >= 1 {
      ShiftFinds(if i in failing then files else Rename(files, Backup(i), Backup(i + 1)), i - 1, failing, k);
    }
  }

  /**
   Where everything is after a rotation, whatever fails in it: index 1 holds the archived file, any other index holds
   the backup from below if that was there and its rename succeeded, and else what it held before unless that moved up
   itself or was removed.
   */
  lemma RotationFinds(files: Files, maxBackups: int, f: Faults, k: int)
    requires Current in files
    ensures var rotated, left := Rotated(files, maxBackups, f), Removed(files, maxBackups, f);
            && Find(rotated, Current) == (if f.archive then Find(files, Current) else None)
            && Find(rotated, Backup(k)) == (if k == 1 && !f.archive then Find(files, Current)
                                            else FoundAt(left, maxBackups - 1, f.renames, k))
  {
    ShiftFinds(Removed(files, maxBackups, f), maxBackups - 1, f.renames, k);
  }

  lemma ArchivedIsGone(files: Files, maxBackups: int, f: Faults)
    ensures Current in files && !f.archive ==> Current !in Rotated(files, maxBackups, f)
  {
    if Current in files {
      RotationFinds(files, maxBackups, f, 1);
    }
  }

  /** When nothing fails every kept backup moves up by one and the current file becomes backup 1. */
  lemma RotationMovesUp(files: Files, maxBackups: int)
    requires Current in files
    ensures var rotated := Rotated(files, maxBackups, NO_FAULTS);
            && Current !in rotated
            && Find(rotated, Backup(1)) == Find(files, Current)
            && (forall k :: 1 < k <= Slots(maxBackups) ==> Find(rotated, Backup(k)) == Find(files, Backup(k - 1)))
            && (forall k :: k > Slots(maxBackups) ==> Find(rotated, Backup(k)) == Find(files, Backup(k)))
  {
    var rotated := Rotated(files, maxBackups, NO_FAULTS);
    forall k
      ensures k == 1 ==> Find(rotated, Backup(k)) == Find(files, Current)
      ensures 1 < k <= Slots(maxBackups) ==> Find(rotated, Backup(k)) == Find(files, Backup(k - 1))
      ensures k > Slots(maxBackups) ==> Find(rotated, Backup(k)) == Find(files, Backup(k))
    {
      RotationFinds(files, maxBackups, NO_FAULTS, k);
    }
    RotationFinds(files, maxBackups, NO_FAULTS, 1);
  }

  /** Something lands on index `j`: the archived file, or the backup from below. */
  predicate Overwritten(files: Files, maxBackups: int, f: Faults, j: int) {
    if j == 1 then !f.archive else Moves(files, maxBackups - 1, f.renames, j - 1)
  }

  /** No backup lies beyond the limit. */
  ghost predicate Tidy(files: Files, maxBackups: int) {
    forall k :: Backup(k) in files ==> 1 <= k <= Slots(maxBackups)
  }

  /** No other file has what file `f` has. */
  ghost predicate Unlike(files: Files, f: FileName)
    requires f in files
  {
    forall g :: g in files && g != f ==> files[g] != files[f]
  }

  /** `content` is in none of the files. */
  ghost predicate Nowhere(files: Files, content: seq<Entry>) {
    forall g :: g in files ==> files[g] != content
  }

  /** A rotation makes room at index `j` and something lands there, or removes what is there. */
  predicate Loses(files: Files, maxBackups: int, f: Faults, j: int) {
    if j == Slots(maxBackups) then (maxBackups >= 1 && !f.remove) || Overwritten(files, maxBackups, f, j)
    else j in f.renames && Overwritten(files, maxBackups, f, j)
  }

  lemma StaysSomewhere(files: Files, maxBackups: int, f: Faults, j: int)
    requires Current in files && Tidy(files, maxBackups) && Backup(j) in files
    requires !Loses(files, maxBackups, f, j)
    ensures !Nowhere(Rotated(files, maxBackups, f), files[Backup(j)])
  {
    var at := if j < Slots(maxBackups) && j !in f.renames then j + 1 else j;
    RotationFinds(files, maxBackups, f, at);
    assert Find(Rotated(files, maxBackups, f), Backup(at)) == Find(files, Backup(j));
  }

  lemma GoneFrom(files: Files, maxBackups: int, f: Faults, j: int, k: int)
    requires Current in files && Tidy(files, maxBackups) && Backup(j) in files && Unlike(files, Backup(j))
    requires Loses(files, maxBackups, f, j)
    ensures Find(Rotated(files, maxBackups, f), Backup(k)) != Some(files[Backup(j)])
  {
    RotationFinds(files, maxBackups, f, k);
  }

  /**
   A rotation loses the oldest backup exactly when it is removed or something lands on it, and any other backup exactly
   when its own rename fails, which is ignored, and something lands on it all the same.
   */
  lemma ArchiveLostIff(files: Files, maxBackups: int, f: Faults, j: int)
    requires Current in files && Tidy(files, maxBackups) && Backup(j) in files && Unlike(files, Backup(j))
    ensures Nowhere(Rotated(files, maxBackups, f), files[Backup(j)]) <==>
            if j == Slots(maxBackups) then (maxBackups >= 1 && !f.remove) || Overwritten(files, maxBackups, f, j)
            else j in f.renames && Overwritten(files, maxBackups, f, j)
  {
    var rotated := Rotated(files, maxBackups, f);
    if Loses(files, maxBackups, f, j) {
      forall g | g in rotated
        ensures rotated[g] != files[Backup(j)]
      {
        match g
        case Current => RotationFinds(files, maxBackups, f, j);
        case Backup(k) => GoneFrom(files, maxBackups, f, j, k);
      }
    } else {
      StaysSomewhere(files, maxBackups, f, j);
    }
  }

  // ----- what a rotation does to the readable log

  lemma {:induction false} SameChain(a: Files, b: Files, k: nat)
    requires Content(a, Current) == Content(b, Current)
    requires forall i :: 1 <= i <= k ==> Content(a, Backup(i)) == Content(b, Backup(i))
    ensures Chain(a, k) == Chain(b, k)
  {
    if k > 0 {
      SameChain(a, b, k - 1);
    }
  }

  /** One rename of the loop moves an archive to a free index: nothing readable is lost, whatever the limit `k`. */
  lemma {:induction false} RenameLosesNothing(files: Files, i: nat, k: nat)
    requires 1 <= i < k && Backup(i + 1) !in files
    ensures Chain(Rename(files, Backup(i), Backup(i + 1)), k) == Chain(files, k)
  {
    var renamed := Rename(files, Backup(i), Backup(i + 1));
    if k == i + 1 {
      SameChain(renamed, files, i - 1);
    } else {
      RenameLosesNothing(files, i, k - 1);
    }
  }

  lemma {:induction false} RemovalKeepsOrder(files: Files, j: int, k: nat)
    ensures IsSubsequence(Chain(files - {Backup(j)}, k), Chain(files, k))
  {
    if k == 0 {
      SubsequenceOfItself(Chain(files, 0));
    } else {
      var left := files - {Backup(j)};
      RemovalKeepsOrder(files, j, k - 1);
      SubsequenceBehind(Content(left, Backup(k)), Chain(left, k - 1), Chain(files, k - 1));
      if j == k {
        EndIsSubsequence(Content(files, Backup(k)), Chain(files, k - 1));
        SubsequenceTransitive(Chain(left, k - 1), Chain(files, k - 1), Chain(files, k));
        assert Chain(left, k) == Chain(left, k - 1);
      } else {
        assert Content(left, Backup(k)) == Content(files, Backup(k));
      }
    }
  }

  /** A rename onto an existing backup loses that backup, but what can still be read keeps its order. */
  lemma RenameKeepsOrder(files: Files, i: nat, k: nat)
    requires 1 <= i < k
    ensures IsSubsequence(Chain(Rename(files, Backup(i), Backup(i + 1)), k), Chain(files, k))
  {
    if Backup(i) in files {
      var left := files - {Backup(i + 1)};
      RemovalKeepsOrder(files, i + 1, k);
      RenameLosesNothing(left, i, k);
      assert Rename(left, Backup(i), Backup(i + 1)) == Rename(files, Backup(i), Backup(i + 1));
    } else {
      SubsequenceOfItself(Chain(files, k));
    }
  }

  lemma {:induction false} ShiftKeepsOrder(files: Files, i: int, failing: set<int>, k: nat)
    requires i < k
    ensures IsSubsequence(Chain(Shift(files, i, failing), k), Chain(files, k))
    decreases if i < 1 then 0 else i
  {
    if i < 1 {
      SubsequenceOfItself(Chain(files, k));
    } else if i in failing {
      ShiftKeepsOrder(files, i - 1, failing, k);
    } else {
      var renamed := Rename(files, Backup(i), Backup(i + 1));
      RenameKeepsOrder(files, i, k);
      ShiftKeepsOrder(renamed, i - 1, failing, k);
      SubsequenceTransitive(Chain(Shift(files, i, failing), k), Chain(renamed, k), Chain(files, k));
    }
  }

  lemma {:induction false} ArchivingKeepsOrder(files: Files, k: nat)
    requires Current in files && k >= 1
    ensures IsSubsequence(Chain(Rename(files, Current, Backup(1)), k), Chain(files, k))
  {
    var archived := Rename(files, Current, Backup(1));
    if k == 1 {
      assert Chain(archived, 1) == Content(files, Current) + Chain(archived, 0) == Content(files, Current);
      assert Chain(files, 1) == Content(files, Backup(1)) + Chain(files, 0);
      EndIsSubsequence(Content(files, Backup(1)), Content(files, Current));
    } else {
      ArchivingKeepsOrder(files, k - 1);
      SubsequenceBehind(Content(files, Backup(k)), Chain(archived, k - 1), Chain(files, k - 1));
      assert Content(archived, Backup(k)) == Content(files, Backup(k));
    }
  }

  /** Whatever fails in a rotation, what can be read afterwards is an ordered part of what could be read before. */
  lemma RotationKeepsOrder(files: Files, maxBackups: int, f: Faults)
    requires Current in files
    ensures IsSubsequence(Chain(Rotated(files, maxBackups, f), Slots(maxBackups)), Chain(files, Slots(maxBackups)))
  {
    var k := Slots(maxBackups);
    var left, shifted := Removed(files, maxBackups, f), Shifted(files, maxBackups, f);
    RemovalKeepsOrder(files, maxBackups, k);
    SubsequenceOfItself(Chain(files, k));
    ShiftKeepsOrder(left, maxBackups - 1, f.renames, k);
    SubsequenceTransitive(Chain(shifted, k), Chain(left, k), Chain(files, k));
    if !f.archive {
      ShiftFinds(left, maxBackups - 1, f.renames, 1);
      assert Find(shifted, Current).Some?;
      ArchivingKeepsOrder(shifted, k);
      SubsequenceTransitive(Chain(Rotated(files, maxBackups, f), k), Chain(shifted, k), Chain(files, k));
    }
  }

  // ----- exactly what a rotation leaves readable

  /** The readable log less the backups that a rotation loses. */
  function Survivors(files: Files, maxBackups: int, f: Faults, k: nat): seq<Entry> {
    if k == 0 then Content(files, Current)
    else
      (if Loses(files, maxBackups, f, k) then [] else Content(files, Backup(k)))
      + Survivors(files, maxBackups, f, k - 1)
  }

  /** What has moved away from index `k` by the end of a rotation. */
  predicate MovesAway(files: Files, maxBackups: int, f: Faults, k: nat) {
    if k == 0 then !f.archive else Moves(Removed(files, maxBackups, f), maxBackups - 1, f.renames, k)
  }

  lemma FoundAtIndex(files: Files, maxBackups: int, f: Faults, k: nat)
    requires Current in files && 1 <= k <= Slots(maxBackups)
    ensures var found := Content(Rotated(files, maxBackups, f), Backup(k));
            if MovesAway(files, maxBackups, f, k - 1) then
              && found == (if k == 1 then Content(files, Current) else Content(files, Backup(k - 1)))
              && (!MovesAway(files, maxBackups, f, k) && Backup(k) in files ==> Loses(files, maxBackups, f, k))
            else if MovesAway(files, maxBackups, f, k) then found == []
            else found == if Loses(files, maxBackups, f, k) then [] else Content(files, Backup(k))
  {
    RotationFinds(files, maxBackups, f, k);
  }

  lemma MovedSurvives(files: Files, maxBackups: int, f: Faults, k: nat)
    requires 1 <= k <= Slots(maxBackups) && MovesAway(files, maxBackups, f, k)
    ensures !Loses(files, maxBackups, f, k)
  {
  }

  lemma {:induction false} SurvivorsUpTo(files: Files, maxBackups: int, f: Faults, k: nat)
    requires Current in files && k <= Slots(maxBackups)
    ensures Chain(Rotated(files, maxBackups, f), k)
         == if !MovesAway(files, maxBackups, f, k) then Survivors(files, maxBackups, f, k)
            else if k == 0 then []
            else Survivors(files, maxBackups, f, k - 1)
  {
    if k == 0 {
      RotationFinds(files, maxBackups, f, 1);
    } else {
      SurvivorsUpTo(files, maxBackups, f, k - 1);
      FoundAtIndex(files, maxBackups, f, k);
      if k > 1 && MovesAway(files, maxBackups, f, k - 1) {
        MovedSurvives(files, maxBackups, f, k - 1);
      }
    }
  }

  /** Whatever fails in a rotation, what can be read afterwards is the log less exactly the backups it loses. */
  lemma RotationLeaves(files: Files, maxBackups: int, f: Faults)
    requires Current in files
    ensures Chain(Rotated(files, maxBackups, f), Slots(maxBackups))
         == Survivors(files, maxBackups, f, Slots(maxBackups))
  {
    SurvivorsUpTo(files, maxBackups, f, Slots(maxBackups));
  }

  /** Backup `k` has something in it and is lost. */
  ghost predicate LosesContent(files: Files, maxBackups: int, f: Faults, k: nat) {
    Content(files, Backup(k)) != [] && Loses(files, maxBackups, f, k)
  }

  /** A backup up to `k` is lost only together with all older ones that have something in them. */
  ghost predicate LosesOldestFirst(files: Files, maxBackups: int, f: Faults, k: nat) {
    forall i: nat, j: nat ::
      1 <= i < j <= k && LosesContent(files, maxBackups, f, i) && Content(files, Backup(j)) != [] ==>
        LosesContent(files, maxBackups, f, j)
  }

  lemma {:induction false} SurvivorsAreAll(files: Files, maxBackups: int, f: Faults, k: nat)
    ensures |Survivors(files, maxBackups, f, k)| <= |Chain(files, k)|
    ensures |Survivors(files, maxBackups, f, k)| == |Chain(files, k)| ==>
              forall i: nat :: 1 <= i <= k ==> !LosesContent(files, maxBackups, f, i)
    ensures (forall i: nat :: 1 <= i <= k ==> !LosesContent(files, maxBackups, f, i)) ==>
              Survivors(files, maxBackups, f, k) == Chain(files, k)
  {
    if k > 0 {
      SurvivorsAreAll(files, maxBackups, f, k - 1);
      var top, left := Content(files, Backup(k)), Survivors(files, maxBackups, f, k - 1);
      assert Loses(files, maxBackups, f, k) && top == [] ==> [] + left == top + left;
      assert !LosesContent(files, maxBackups, f, k) ==> Survivors(files, maxBackups, f, k) == top + left;
    }
  }

  lemma TopGone(files: Files, maxBackups: int, f: Faults, k: nat)
    requires k > 0 && (Content(files, Backup(k)) == [] || Loses(files, maxBackups, f, k))
    ensures LosesOldestFirst(files, maxBackups, f, k) <==> LosesOldestFirst(files, maxBackups, f, k - 1)
    ensures Survivors(files, maxBackups, f, k) == Survivors(files, maxBackups, f, k - 1)
  {
  }

  lemma TopStays(files: Files, maxBackups: int, f: Faults, k: nat)
    requires k > 0 && Content(files, Backup(k)) != [] && !Loses(files, maxBackups, f, k)
    ensures LosesOldestFirst(files, maxBackups, f, k)
       <==> forall i: nat :: 1 <= i <= k - 1 ==> !LosesContent(files, maxBackups, f, i)
  {
    assert !LosesContent(files, maxBackups, f, k);
  }

  lemma {:induction false} SurvivorsAreEndIff(files: Files, maxBackups: int, f: Faults, k: nat)
    requires Distinct(Chain(files, k))
    ensures IsEnd(Survivors(files, maxBackups, f, k), Chain(files, k)) <==> LosesOldestFirst(files, maxBackups, f, k)
  {
    if k > 0 {
      var top, below := Content(files, Backup(k)), Chain(files, k - 1);
      var left := Survivors(files, maxBackups, f, k - 1);
      SurvivorsAreAll(files, maxBackups, f, k - 1);
      if top == [] || Loses(files, maxBackups, f, k) {
        EndIsDistinct(top, below);
        SurvivorsAreEndIff(files, maxBackups, f, k - 1);
        TopGone(files, maxBackups, f, k);
        EndOfLonger(left, top, below);
      } else {
        TopStays(files, maxBackups, f, k);
        EndsBehind(top, left, below);
      }
    }
  }

  /** The renames of a rotation all succeed; any other of its operations may fail. */
  ghost predicate RenamesWork(f: Faults, maxBackups: int) {
    forall i :: 1 <= i < maxBackups ==> i !in f.renames
  }

  lemma {:induction false} ChainBelowOldest(files: Files, maxBackups: int, f: Faults, k: nat)
    requires Current in files && RenamesWork(f, maxBackups) && 1 <= k < maxBackups
    ensures Chain(Rotated(files, maxBackups, f), k) == Chain(files, k - 1)
  {
    RotationFinds(files, maxBackups, f, k);
    var rotated := Rotated(files, maxBackups, f);
    if k > 1 {
      ChainBelowOldest(files, maxBackups, f, k - 1);
      assert Content(rotated, Backup(k)) == Content(files, Backup(k - 1));
    }
  }

  /** What a rotation loses when its renames work: the oldest backup, if that is removed or something lands on it. */
  function Lost(files: Files, maxBackups: int, f: Faults): seq<Entry> {
    if Loses(files, maxBackups, f, Slots(maxBackups)) then Content(files, Backup(Slots(maxBackups))) else []
  }

  lemma RotationLosesOldest(files: Files, maxBackups: int, f: Faults)
    requires Current in files && RenamesWork(f, maxBackups)
    ensures Chain(files, Slots(maxBackups))
         == Lost(files, maxBackups, f) + Chain(Rotated(files, maxBackups, f), Slots(maxBackups))
  {
    var k := Slots(maxBackups);
    var rotated := Rotated(files, maxBackups, f);
    RotationFinds(files, maxBackups, f, k);
    if k > 1 {
      ChainBelowOldest(files, maxBackups, f, k - 1);
      assert Chain(files, k) == Content(files, Backup(k)) + Content(files, Backup(k - 1)) + Chain(files, k - 2);
    }
  }

  // ----- whole runs

  /**
   How a write ends once rotation is done: the line is appended, or the file cannot be opened or the entry encoded.
   */
  datatype Outcome = Appended | OpenFailed | EncodeFailed

  datatype Op = Op(entry: Entry, faults: Faults, outcome: Outcome)

  datatype Limits = Limits(maxBytes: int, maxBackups: int)

  predicate NeedsRotation(l: Limits, files: Files, f: Faults) {
    l.maxBytes > 0 && !f.stat && Current in files && Size(files[Current]) >= l.maxBytes
  }

  function Prepared(l: Limits, files: Files, f: Faults): Files {
    if NeedsRotation(l, files, f) then Rotated(files, l.maxBackups, f) else files
  }

  /** A write gives up before it opens the file when the stat fails or the current file cannot be archived. */
  predicate GivesUp(l: Limits, files: Files, f: Faults) {
    (l.maxBytes > 0 && f.stat) || (NeedsRotation(l, files, f) && f.archive)
  }

  function Append(files: Files, entry: Entry, outcome: Outcome): Files {
    match outcome
    case Appended => files[Current := Content(files, Current) + [entry]]
    case OpenFailed => files
    case EncodeFailed => files[Current := Content(files, Current)]
  }

  function Write(l: Limits, files: Files, op: Op): Files {
    var ready := Prepared(l, files, op.faults);
    if GivesUp(l, files, op.faults) then ready else Append(ready, op.entry, op.outcome)
  }

  /** What a write adds to the log. */
  function Added(l: Limits, files: Files, op: Op): seq<Entry> {
    if !GivesUp(l, files, op.faults) && op.outcome.Appended? then [op.entry] else []
  }

  /** The files after a run that started with none. */
  function Run(l: Limits, ops: seq<Op>): Files {
    if ops == [] then map[] else Write(l, Run(l, ops[..|ops| - 1]), ops[|ops| - 1])
  }

  /** Everything a run ever appended, oldest first. */
  function Written(l: Limits, ops: seq<Op>): seq<Entry> {
    if ops == [] then []
    else
      var before := ops[..|ops| - 1];
      Written(l, before) + Added(l, Run(l, before), ops[|ops| - 1])
  }

  /** How often a run archived the current file. */
  function Rotations(l: Limits, ops: seq<Op>): nat {
    if ops == [] then 0
    else
      var before := ops[..|ops| - 1];
      var f := ops[|ops| - 1].faults;
      Rotations(l, before) + if NeedsRotation(l, Run(l, before), f) && !f.archive then 1 else 0
  }

  /** What a write discards, provided its renames work. */
  function LostBy(l: Limits, files: Files, f: Faults): seq<Entry> {
    if NeedsRotation(l, files, f) then Lost(files, l.maxBackups, f) else []
  }

  /** Everything a run has discarded. */
  function Discarded(l: Limits, ops: seq<Op>): seq<Entry> {
    if ops == [] then []
    else
      var before := ops[..|ops| - 1];
      Discarded(l, before) + LostBy(l, Run(l, before), ops[|ops| - 1].faults)
  }

  lemma {:induction false} ChainAfterAppend(files: Files, entry: Entry, outcome: Outcome, k: nat)
    ensures Chain(Append(files, entry, outcome), k) == Chain(files, k) + if outcome.Appended? then [entry] else []
  {
    if k > 0 {
      ChainAfterAppend(files, entry, outcome, k - 1);
      assert Content(Append(files, entry, outcome), Backup(k)) == Content(files, Backup(k));
    }
  }

  /** A write changes the readable log by what its rotation changes, and then by what it adds. */
  lemma ChainAfterWrite(l: Limits, files: Files, op: Op, k: nat)
    ensures Chain(Write(l, files, op), k) == Chain(Prepared(l, files, op.faults), k) + Added(l, files, op)
  {
    if !GivesUp(l, files, op.faults) {
      ChainAfterAppend(Prepared(l, files, op.faults), op.entry, op.outcome, k);
    }
  }

  lemma {:induction false} NoFilesNoLog(k: nat)
    ensures Chain(map[], k) == []
  {
    if k > 0 {
      NoFilesNoLog(k - 1);
    }
  }

  lemma SubsequenceOfBoth<T>(a: seq<T>, b: seq<T>, more: seq<T>)
    requires IsSubsequence(a, b) && |more| <= 1
    ensures IsSubsequence(a + more, b + more)
  {
    if more == [] {
      assert a + more == a && b + more == b;
    } else {
      SubsequenceTakesLast(a, b, more[0]);
      assert more == [more[0]];
    }
  }

  /** Whatever fails, the files read back an ordered part of everything that was ever appended. */
  lemma {:induction false} FilesKeepOrder(l: Limits, ops: seq<Op>)
    ensures IsSubsequence(Chain(Run(l, ops), Slots(l.maxBackups)), Written(l, ops))
  {
    var k := Slots(l.maxBackups);
    if ops == [] {
      NoFilesNoLog(k);
      SubsequenceOfItself<Entry>([]);
    } else {
      var before, op := ops[..|ops| - 1], ops[|ops| - 1];
      var files := Run(l, before);
      var ready := Prepared(l, files, op.faults);
      FilesKeepOrder(l, before);
      ChainAfterWrite(l, files, op, k);
      if NeedsRotation(l, files, op.faults) {
        RotationKeepsOrder(files, l.maxBackups, op.faults);
        SubsequenceTransitive(Chain(ready, k), Chain(files, k), Written(l, before));
      }
      SubsequenceOfBoth(Chain(ready, k), Written(l, before), Added(l, files, op));
    }
  }

  lemma Regroup<T>(a: seq<T>, b: seq<T>, c: seq<T>, d: seq<T>)
    ensures a + (b + c) + d == a + b + (c + d)
  {
  }

  lemma OneMoreWrite(l: Limits, files: Files, discarded: seq<Entry>, op: Op)
    requires RenamesWork(op.faults, l.maxBackups)
    ensures discarded + Chain(files, Slots(l.maxBackups)) + Added(l, files, op)
         == discarded + LostBy(l, files, op.faults) + Chain(Write(l, files, op), Slots(l.maxBackups))
  {
    var k := Slots(l.maxBackups);
    var ready := Prepared(l, files, op.faults);
    ChainAfterWrite(l, files, op, k);
    Regroup(discarded, LostBy(l, files, op.faults), Chain(ready, k), Added(l, files, op));
    if NeedsRotation(l, files, op.faults) {
      RotationLosesOldest(files, l.maxBackups, op.faults);
    } else {
      assert [] + Chain(ready, k) == Chain(ready, k);
    }
  }

  ghost predicate AllRenamesWork(l: Limits, ops: seq<Op>) {
    forall i :: 0 <= i < |ops| ==> RenamesWork(ops[i].faults, l.maxBackups)
  }

  /**
   As long as the renames of existing backups work, whatever else fails, the files hold a contiguous end of everything
   written: what is missing is exactly the oldest backups that were discarded.
   */
  lemma {:induction false} FilesHoldSuffix(l: Limits, ops: seq<Op>)
    requires AllRenamesWork(l, ops)
    ensures Written(l, ops) == Discarded(l, ops) + Chain(Run(l, ops), Slots(l.maxBackups))
  {
    if ops == [] {
      NoFilesNoLog(Slots(l.maxBackups));
    } else {
      var before := ops[..|ops| - 1];
      FilesHoldSuffix(l, before);
      OneMoreWrite(l, Run(l, before), Discarded(l, before), ops[|ops| - 1]);
    }
  }

  /** At every moment of a run the files held a contiguous end of everything written by then. */
  ghost predicate AlwaysHoldEnd(l: Limits, ops: seq<Op>) {
    && IsEnd(Chain(Run(l, ops), Slots(l.maxBackups)), Written(l, ops))
    && (ops == [] || AlwaysHoldEnd(l, ops[..|ops| - 1]))
  }

  /** A write loses no backup that has something in it without all older ones that have. */
  ghost predicate KeepsNewest(l: Limits, files: Files, f: Faults) {
    NeedsRotation(l, files, f) ==> LosesOldestFirst(files, l.maxBackups, f, Slots(l.maxBackups))
  }

  ghost predicate AlwaysKeepNewest(l: Limits, ops: seq<Op>) {
    ops == []
    || (AlwaysKeepNewest(l, ops[..|ops| - 1]) && KeepsNewest(l, Run(l, ops[..|ops| - 1]), ops[|ops| - 1].faults))
  }

  lemma WriteHoldsEndIff(l: Limits, files: Files, op: Op, written: seq<Entry>)
    requires Distinct(written) && IsEnd(Chain(files, Slots(l.maxBackups)), written)
    ensures IsEnd(Chain(Write(l, files, op), Slots(l.maxBackups)), written + Added(l, files, op))
       <==> KeepsNewest(l, files, op.faults)
  {
    var k := Slots(l.maxBackups);
    var chain, left := Chain(files, k), Chain(Prepared(l, files, op.faults), k);
    ChainAfterWrite(l, files, op, k);
    EndOfAppend(left, written, Added(l, files, op));
    if NeedsRotation(l, files, op.faults) {
      assert written == written[..|written| - |chain|] + chain;
      EndIsDistinct(written[..|written| - |chain|], chain);
      RotationLeaves(files, l.maxBackups, op.faults);
      SurvivorsAreAll(files, l.maxBackups, op.faults, k);
      EndOfEnd(left, chain, written);
      SurvivorsAreEndIff(files, l.maxBackups, op.faults, k);
    }
  }

  lemma DistinctBefore<T>(before: seq<T>, more: seq<T>)
    requires Distinct(before + more)
    ensures Distinct(before)
  {
    assert forall i :: 0 <= i < |before| ==> before[i] == (before + more)[i];
  }

  /**
   Whatever fails, if no two entries are the same the files hold a contiguous end of everything written at every moment
   of a run if and only if no rotation of it loses a backup with something in it and keeps an older one that has.
   */
  lemma {:induction false} HoldsEndIff(l: Limits, ops: seq<Op>)
    requires Distinct(Written(l, ops))
    ensures AlwaysHoldEnd(l, ops) <==> AlwaysKeepNewest(l, ops)
  {
    if ops == [] {
      NoFilesNoLog(Slots(l.maxBackups));
    } else {
      var before, op := ops[..|ops| - 1], ops[|ops| - 1];
      DistinctBefore(Written(l, before), Added(l, Run(l, before), op));
      HoldsEndIff(l, before);
      if AlwaysHoldEnd(l, before) {
        WriteHoldsEndIff(l, Run(l, before), op, Written(l, before));
      }
    }
  }

  function Min(a: nat, b: nat): nat {
    if a < b then a else b
  }

  lemma {:induction false} RunIsTidy(l: Limits, ops: seq<Op>)
    ensures Tidy(Run(l, ops), l.maxBackups)
  {
    if ops != [] {
      var before, f := ops[..|ops| - 1], ops[|ops| - 1].faults;
      RunIsTidy(l, before);
      if NeedsRotation(l, Run(l, before), f) {
        forall k | Backup(k) in Run(l, ops)
          ensures 1 <= k <= Slots(l.maxBackups)
        {
          RotationFinds(Run(l, before), l.maxBackups, f, k);
          assert Find(Rotated(Run(l, before), l.maxBackups, f), Backup(k)).Some?;
        }
      }
    }
  }

  /** Renames and archiving work; the stat, the removal, the opening and the encoding may fail. */
  ghost predicate MovesWork(l: Limits, ops: seq<Op>) {
    AllRenamesWork(l, ops) && forall i :: 0 <= i < |ops| ==> !ops[i].faults.archive
  }

  /** The backups that exist are exactly 1..count. */
  ghost predicate Contiguous(files: Files, count: nat) {
    forall i :: Backup(i) in files <==> 1 <= i <= count
  }

  lemma RotatedContiguous(files: Files, maxBackups: int, f: Faults, count: nat)
    requires Current in files && RenamesWork(f, maxBackups) && !f.archive
    requires count <= Slots(maxBackups) && Contiguous(files, count)
    ensures Contiguous(Rotated(files, maxBackups, f), Min(count + 1, Slots(maxBackups)))
  {
    forall i
      ensures Backup(i) in Rotated(files, maxBackups, f) <==> 1 <= i <= Min(count + 1, Slots(maxBackups))
    {
      RotationFinds(files, maxBackups, f, i);
      assert Backup(i) in Rotated(files, maxBackups, f) <==> Find(Rotated(files, maxBackups, f), Backup(i)).Some?;
    }
  }

  /** The existing backups are exactly 1..k, one per rotation until the limit is reached. */
  lemma {:induction false} BackupsAreContiguous(l: Limits, ops: seq<Op>)
    requires MovesWork(l, ops)
    ensures Contiguous(Run(l, ops), Min(Rotations(l, ops), Slots(l.maxBackups)))
  {
    if ops != [] {
      var before, f := ops[..|ops| - 1], ops[|ops| - 1].faults;
      BackupsAreContiguous(l, before);
      if NeedsRotation(l, Run(l, before), f) {
        RotatedContiguous(Run(l, before), l.maxBackups, f, Min(Rotations(l, before), Slots(l.maxBackups)));
      }
    }
  }

  /** Backups 1..count are gone. */
  ghost predicate Vacated(files: Files, count: nat) {
    forall i :: 1 <= i <= count ==> Backup(i) !in files
  }

  lemma FailedArchiveVacates(files: Files, maxBackups: int, f: Faults, count: nat)
    requires Current in files && RenamesWork(f, maxBackups) && !f.remove && f.archive
    requires Vacated(files, count) && count < maxBackups
    ensures Vacated(Rotated(files, maxBackups, f), count + 1)
    ensures Find(Rotated(files, maxBackups, f), Current) == Find(files, Current)
  {
    forall i | 1 <= i <= count + 1
      ensures Backup(i) !in Rotated(files, maxBackups, f)
    {
      RotationFinds(files, maxBackups, f, i);
      assert Find(Rotated(files, maxBackups, f), Backup(i)) == None;
    }
    RotationFinds(files, maxBackups, f, 1);
  }

  /**
   The backups are moved up before the current file is archived: once the log is full and only archiving fails, each
   attempted write loses the oldest backup, and as many attempts as there are slots leave none.
   */
  lemma {:induction false} FailedArchivesVacate(l: Limits, files: Files, ops: seq<Op>) returns (after: Files)
    requires l.maxBytes > 0 && Current in files && Size(files[Current]) >= l.maxBytes
    requires |ops| <= l.maxBackups
    requires forall i :: 0 <= i < |ops| ==> ops[i].faults == NO_FAULTS.(archive := true)
    ensures after == WriteAll(l, files, ops)
    ensures Vacated(after, |ops|) && Find(after, Current) == Find(files, Current)
  {
    after := files;
    if ops != [] {
      var before := FailedArchivesVacate(l, files, ops[..|ops| - 1]);
      FailedArchiveVacates(before, l.maxBackups, ops[|ops| - 1].faults, |ops| - 1);
      after := Write(l, before, ops[|ops| - 1]);
    }
  }

  function WriteAll(l: Limits, files: Files, ops: seq<Op>): Files {
    if ops == [] then files else Write(l, WriteAll(l, files, ops[..|ops| - 1]), ops[|ops| - 1])
  }

  // ----- sizes

  ghost predicate EntriesUpTo(ops: seq<Op>, largest: nat) {
    forall i :: 0 <= i < |ops| ==> ops[i].entry.size <= largest
  }

  ghost predicate BackupsSized(files: Files, low: nat, high: nat) {
    forall i :: Backup(i) in files ==> low <= Size(files[Backup(i)]) < high
  }

  lemma RotatedSizes(files: Files, maxBackups: int, f: Faults, low: nat, high: nat)
    requires Current in files && low <= Size(files[Current]) < high
    requires BackupsSized(files, low, high)
    ensures BackupsSized(Rotated(files, maxBackups, f), low, high)
    ensures Find(Rotated(files, maxBackups, f), Current) == if f.archive then Find(files, Current) else None
  {
    var rotated := Rotated(files, maxBackups, f);
    RotationFinds(files, maxBackups, f, 1);
    forall i | Backup(i) in rotated
      ensures low <= Size(rotated[Backup(i)]) < high
    {
      RotationFinds(files, maxBackups, f, i);
      assert Find(rotated, Backup(i)) == Some(rotated[Backup(i)]);
    }
  }

  lemma AppendedSizes(files: Files, entry: Entry, outcome: Outcome, largest: nat)
    requires entry.size <= largest
    ensures Size(Content(Append(files, entry, outcome), Current)) <= Size(Content(files, Current)) + largest
    ensures forall i :: Find(Append(files, entry, outcome), Backup(i)) == Find(files, Backup(i))
  {
    assert (Content(files, Current) + [entry])[..|Content(files, Current)|] == Content(files, Current);
  }

  /** Whatever fails, every backup holds at least `maxBytes`, and no file reaches `maxBytes` plus the largest entry. */
  lemma {:induction false} FileSizes(l: Limits, ops: seq<Op>, largest: nat)
    requires l.maxBytes > 0 && EntriesUpTo(ops, largest)
    ensures Size(Content(Run(l, ops), Current)) < l.maxBytes + largest
    ensures BackupsSized(Run(l, ops), l.maxBytes, l.maxBytes + largest)
  {
    if ops != [] {
      var before, op := ops[..|ops| - 1], ops[|ops| - 1];
      var files := Run(l, before);
      var ready := Prepared(l, files, op.faults);
      FileSizes(l, before, largest);
      if NeedsRotation(l, files, op.faults) {
        RotatedSizes(files, l.maxBackups, op.faults, l.maxBytes, l.maxBytes + largest);
      }
      if !GivesUp(l, files, op.faults) {
        assert Size(Content(ready, Current)) < l.maxBytes;
        AppendedSizes(ready, op.entry, op.outcome, largest);
      }
    }
  }

  lemma {:induction false} SizeOfConcat(a: seq<Entry>, b: seq<Entry>)
    ensures Size(a + b) == Size(a) + Size(b)
  {
    if b == [] {
      assert a + b == a;
    } else {
      SizeOfConcat(a, b[..|b| - 1]);
      assert (a + b)[..|a + b| - 1] == a + b[..|b| - 1];
    }
  }

  lemma {:induction false} ChainSize(files: Files, k: nat, least: nat)
    requires forall i :: 1 <= i <= k ==> least <= Size(Content(files, Backup(i)))
    ensures Size(Chain(files, k)) >= k * least
  {
    if k > 0 {
      ChainSize(files, k - 1, least);
      SizeOfConcat(Content(files, Backup(k)), Chain(files, k - 1));
      assert k * least == (k - 1) * least + least;
    }
  }

  lemma {:induction false} DiscardingNeedsFullSlots(l: Limits, ops: seq<Op>)
    requires MovesWork(l, ops)
    ensures Discarded(l, ops) != [] ==> Rotations(l, ops) > Slots(l.maxBackups)
  {
    if ops != [] {
      DiscardingNeedsFullSlots(l, ops[..|ops| - 1]);
      BackupsAreContiguous(l, ops[..|ops| - 1]);
    }
  }

  /** Once anything has been discarded, every slot is full: `maxBytes` of log for each backup are still there. */
  lemma DiscardingKeepsEnough(l: Limits, ops: seq<Op>)
    requires l.maxBytes > 0 && MovesWork(l, ops) && Discarded(l, ops) != []
    ensures Size(Chain(Run(l, ops), Slots(l.maxBackups))) >= Slots(l.maxBackups) * l.maxBytes
  {
    DiscardingNeedsFullSlots(l, ops);
    BackupsAreContiguous(l, ops);
    FileSizes(l, ops, LargestEntry(ops));
    ChainSize(Run(l, ops), Slots(l.maxBackups), l.maxBytes);
  }

  function LargestEntry(ops: seq<Op>): (largest: nat)
    ensures EntriesUpTo(ops, largest)
  {
    if ops == [] then 0
    else
      var rest := LargestEntry(ops[..|ops| - 1]);
      if ops[|ops| - 1].entry.size > rest then ops[|ops| - 1].entry.size else rest
  }

  /** The backup indices that exist among 1..k, in increasing order. */
  function Present(files: Files, k: nat): (present: seq<nat>)
    ensures forall i: int :: i in present <==> 1 <= i <= k && Backup(i) in files
    ensures forall i, j :: 0 <= i < j < |present| ==> present[i] < present[j]
  {
    if k == 0 then []
    else
      var below := Present(files, k - 1);
      assert forall i :: 0 <= i < |below| ==> below[i] in below;
      if Backup(k) in files then below + [k] else below
  }

  lemma {:induction false} PresentIsRange(files: Files, count: nat, k: nat)
    requires Contiguous(files, count)
    ensures Present(files, k) == seq(Min(count, k), i requires 0 <= i < Min(count, k) => i + 1)
  {
    if k > 0 {
      PresentIsRange(files, count, k - 1);
    }
  }

  /** Without a size limit nothing is ever rotated: the current file is all there is and has everything written. */
  lemma {:induction false} NoLimitNoRotation(l: Limits, ops: seq<Op>)
    requires l.maxBytes <= 0
    ensures forall k :: Backup(k) !in Run(l, ops)
    ensures Content(Run(l, ops), Current) == Written(l, ops)
    ensures Discarded(l, ops) == []
  {
    if ops != [] {
      NoLimitNoRotation(l, ops[..|ops| - 1]);
    }
  }

  lemma OneMoreOp(l: Limits, ops: seq<Op>, op: Op)
    ensures Run(l, ops + [op]) == Write(l, Run(l, ops), op)
    ensures Written(l, ops + [op]) == Written(l, ops) + Added(l, Run(l, ops), op)
  {
    assert (ops + [op])[..|ops|] == ops;
  }

  // ----- the object of the implementation

  class Logger {
    const maxBytes: int
    const maxBackups: int
    var files: Files
    ghost var ops: seq<Op>

    function Lim(): Limits {
      Limits(maxBytes, maxBackups)
    }

    ghost predicate Valid()
      reads this
    {
      files == Run(Lim(), ops)
    }

    constructor (maxBytes: int, maxBackups: int)
      ensures Valid() && ops == [] && this.maxBytes == maxBytes && this.maxBackups == maxBackups
    {
      this.maxBytes, this.maxBackups := maxBytes, maxBackups;
      files, ops := map[], [];
    }

    /**
     Archives the current file. At every iteration of the rename loop what can be read is an ordered part of what could
     be read before; while nothing fails it is all of it but the oldest backup.
     */
    method Rotate(f: Faults) returns (ok: bool)
      requires Current in files
      modifies this`files
      ensures files == Rotated(old(files), maxBackups, f)
      ensures ok <==> !f.archive
    {
      ghost var k := Slots(maxBackups);
      ghost var before := files;
      if !f.remove {
        files := files - {Backup(maxBackups)};
      }
      RemovalKeepsOrder(before, maxBackups, k);
      SubsequenceOfItself(Chain(before, k));
      ghost var removed := files;
      var i := maxBackups - 1;
      while i >= 1
        invariant i >= 1 ==> i < maxBackups
        invariant Shift(files, i, f.renames) == Shift(removed, maxBackups - 1, f.renames)
        invariant IsSubsequence(Chain(files, k), Chain(before, k))
        invariant !f.remove && f.renames == {} ==>
                    (i >= 1 ==> Backup(i + 1) !in files) && Chain(files, k) == Chain(removed, k)
      {
        if i !in f.renames {
          RenameKeepsOrder(files, i, k);
          if Backup(i + 1) !in files {
            RenameLosesNothing(files, i, k);
          }
          SubsequenceTransitive(Chain(Rename(files, Backup(i), Backup(i + 1)), k), Chain(files, k), Chain(before, k));
          files := Rename(files, Backup(i), Backup(i + 1));
        }
        i := i - 1;
      }
      if f.archive {
        return false;
      }
      files := Rename(files, Current, Backup(1));
      return true;
    }

    method RotateIfNeeded(f: Faults) returns (ok: bool)
      requires maxBytes > 0
      modifies this`files
      ensures files == Prepared(Lim(), old(files), f)
      ensures ok <==> !GivesUp(Lim(), old(files), f)
    {
      if f.stat {
        return false;
      }
      if Current !in files {
        return true;
      }
      if Size(files[Current]) < maxBytes {
        return true;
      }
      ok := Rotate(f);
    }

    /** Opens the file, creating it if need be, and appends the encoded entry. */
    method AppendEntry(entry: Entry, outcome: Outcome) returns (ok: bool)
      modifies this`files
      ensures files == Append(old(files), entry, outcome)
      ensures ok <==> outcome.Appended?
    {
      if outcome.OpenFailed? {
        return false;
      }
      if Current !in files {
        files := files[Current := []];
      }
      if outcome.EncodeFailed? {
        return false;
      }
      files := files[Current := files[Current] + [entry]];
      return true;
    }

    /** Rotates first when the current file is full, then appends; success is reported exactly when the entry is in. */
    method Write(entry: Entry, f: Faults, outcome: Outcome) returns (ok: bool)
      requires Valid()
      modifies this
      ensures Valid() && ops == old(ops) + [Op(entry, f, outcome)]
      ensures Written(Lim(), ops) == old(Written(Lim(), ops)) + if ok then [entry] else []
      ensures ok <==>
                && outcome.Appended?
                && (maxBytes > 0 ==> !f.stat && (Size(Content(old(files), Current)) >= maxBytes ==> !f.archive))
      ensures ok ==>
                && Current in files
                && files[Current]
                == (if maxBytes > 0 && Size(Content(old(files), Current)) >= maxBytes then []
                    else Content(old(files), Current)) + [entry]
    {
      ArchivedIsGone(files, maxBackups, f);
      OneMoreOp(Lim(), ops, Op(entry, f, outcome));
      ops := ops + [Op(entry, f, outcome)];
      if maxBytes > 0 {
        var ready := RotateIfNeeded(f);
        if !ready {
          return false;
        }
      }
      ok := AppendEntry(entry, outcome);
    }

    /** The backups reported in the status: those that exist within the limit, which are 1..k if every move worked. */
    method BackupList() returns (list: seq<nat>)
      requires Valid()
      ensures forall i: int :: i in list <==> 1 <= i <= maxBackups && Backup(i) in files
      ensures forall i, j :: 0 <= i < j < |list| ==> list[i] < list[j]
      ensures maxBackups >= 1 && MovesWork(Lim(), ops) ==>
                var count := Min(Rotations(Lim(), ops), maxBackups);
                list == seq(count, i requires 0 <= i < count => i + 1)
    {
      list := [];
      var i := 1;
      while i <= maxBackups
        invariant 1 <= i && (maxBackups >= 1 ==> i <= maxBackups + 1) && (maxBackups < 1 ==> i == 1)
        invariant list == Present(files, i - 1)
      {
        if Backup(i) in files {
          list := list + [i];
        }
        i := i + 1;
      }
      if maxBackups >= 1 && MovesWork(Lim(), ops) {
        BackupsAreContiguous(Lim(), ops);
        PresentIsRange(files, Min(Rotations(Lim(), ops), maxBackups), maxBackups);
      }
    }
  }
}
