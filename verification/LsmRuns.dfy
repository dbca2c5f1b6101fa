/** Every run of the store.  In every reachable state the layered store reads like the plain
    history of everything ever written, at every live or future snapshot.
  */
module LsmRuns {
  import opened Keys
  import opened Versions
  import opened CompactionWork
  import opened Lsm
  import opened LsmSteps
  import opened LsmCompactions

  /** A store together with the set of all entries ever written to it. */
  datatype System = System(db: Db, history: iset<Entry>)

  ghost function Initial(): System {
    System(Db([], None, [[], [], [], [], [], [], []], map[], 0, 2, []), iset{})
  }

  ghost function Next(sys: System, step: Step): System
    requires Ready(sys.db, step)
  {
    System(After(sys.db, step), sys.history + Written(sys.db, step))
  }

  /** At or above the smallest snapshot the store and the history give the same answers. */
  ghost predicate Agree(sys: System) {
    forall k, s: nat :: s >= SmallestSnapshot(sys.db) ==> Reads(All(sys.db), k, s) == Reads(sys.history, k, s)
  }

  ghost predicate SysInv(sys: System) {
    Inv(sys.db) && Agree(sys) && UniqueSeqs(sys.history) &&
    forall e :: e in sys.history ==> e.key.sequence <= sys.db.lastSequence
  }

  /** Adding entries newer than all others: a read sees the new ones if it can, else the old answer. */
  lemma ReadsAfterAdding(all: iset<Entry>, added: iset<Entry>, bound: nat, k: UserKey, s: nat)
    requires UniqueSeqs(all) && UniqueSeqs(added)
    requires forall e :: e in all ==> e.key.sequence <= bound
    requires forall e :: e in added ==> e.key.sequence > bound
    ensures Reads(all + added, k, s) == if NoMatch(added, k, s) then Reads(all, k, s) else Reads(added, k, s)
  {
    assert UniqueSeqs(all + added);
    var part := if NoMatch(added, k, s) then all else added;
    if NoMatch(part, k, s) {
      NoMatchReads(part, k, s);
      NoMatchReads(all + added, k, s);
    } else {
      NewestExists(part, k, s);
      var e :| IsNewest(part, k, s, e);
      assert IsNewest(all + added, k, s, e);
      ReadsNewest(part, k, s, e);
      ReadsNewest(all + added, k, s, e);
    }
  }

  lemma AllBounded(db: Db)
    requires Inv(db)
    ensures UniqueSeqs(All(db)) && forall e :: e in All(db) ==> e.key.sequence <= db.lastSequence
  {
    AllUnique(db);
  }

  lemma WriteAgrees(sys: System, ops: seq<Op>, db': Db)
    requires UniqueSeqs(All(sys.db)) && (forall e :: e in All(sys.db) ==> e.key.sequence <= sys.db.lastSequence)
    requires Agree(sys) && UniqueSeqs(sys.history)
    requires forall e :: e in sys.history ==> e.key.sequence <= sys.db.lastSequence
    requires All(db') == All(sys.db) + NewEntries(ops, sys.db.lastSequence + 1)
    requires SmallestSnapshot(db') >= SmallestSnapshot(sys.db)
    ensures Agree(System(db', sys.history + NewEntries(ops, sys.db.lastSequence + 1)))
    ensures UniqueSeqs(sys.history + NewEntries(ops, sys.db.lastSequence + 1))
  {
    var added := NewEntries(ops, sys.db.lastSequence + 1);
    forall k, s: nat | s >= SmallestSnapshot(db')
      ensures Reads(All(db'), k, s) == Reads(sys.history + added, k, s)
    {
      ReadsAfterAdding(All(sys.db), added, sys.db.lastSequence, k, s);
      ReadsAfterAdding(sys.history, added, sys.db.lastSequence, k, s);
    }
  }

  /** Steps other than writes leave the last sequence number alone, and no step lowers the
      smallest snapshot. */
  lemma SmallestSnapshotGrows(db: Db, step: Step)
    requires SnapshotsOk(db) && Enabled(db, step)
    ensures SmallestSnapshot(After(db, step)) >= SmallestSnapshot(db)
    ensures After(db, step).lastSequence == db.lastSequence + if step.Write? then |step.ops| else 0
  {
    if step.TakeSnapshot? || step.ReleaseSnapshot? {
      SnapshotListOk(db, step);
    }
  }

  lemma StepKeepsDb(db: Db, step: Step)
    requires Inv(db) && Enabled(db, step)
    ensures Inv(After(db, step))
    ensures step.Write? ==> All(After(db, step)) == All(db) + NewEntries(step.ops, db.lastSequence + 1)
    ensures !step.Write? ==>
      forall k, s: nat :: s >= SmallestSnapshot(db) ==> Reads(All(After(db, step)), k, s) == Reads(All(db), k, s)
  {
    match step
    case Write(ops) => WriteInv(db, ops);
    case SwitchMem => SwitchInv(db);
    case Flush(size) => FlushInv(db, size);
    case Move(level, f) => MoveInv(db, level, f);
    case Merge(_, _, _, _, _, _) => MergeInv(db, step);
    case TakeSnapshot => SnapshotInv(db, step);
    case ReleaseSnapshot(_) => SnapshotInv(db, step);
  }

  lemma QuietStep(sys: System, db': Db)
    requires SysInv(sys) && Inv(db') && db'.lastSequence == sys.db.lastSequence
    requires SmallestSnapshot(db') >= SmallestSnapshot(sys.db)
    requires forall k, s: nat :: s >= SmallestSnapshot(sys.db) ==> Reads(All(db'), k, s) == Reads(All(sys.db), k, s)
    ensures SysInv(System(db', sys.history))
  {
  }

  lemma WriteStep(sys: System, ops: seq<Op>, db': Db)
    requires SysInv(sys) && Inv(db') && db'.lastSequence == sys.db.lastSequence + |ops|
    requires SmallestSnapshot(db') >= SmallestSnapshot(sys.db)
    requires All(db') == All(sys.db) + NewEntries(ops, sys.db.lastSequence + 1)
    ensures SysInv(System(db', sys.history + NewEntries(ops, sys.db.lastSequence + 1)))
  {
    AllBounded(sys.db);
    WriteAgrees(sys, ops, db');
  }

  lemma NextParts(sys: System, step: Step)
    requires Ready(sys.db, step)
    ensures Next(sys, step) ==
      System(After(sys.db, step),
             if step.Write? then sys.history + NewEntries(step.ops, sys.db.lastSequence + 1) else sys.history)
  {
    hide Ready, After;
    assert sys.history + iset{} == sys.history;
  }

  lemma WriteKeepsInvariant(sys: System, step: Step)
    requires SysInv(sys) && Inv(sys.db) && Ready(sys.db, step) && Enabled(sys.db, step) && step.Write?
    requires SnapshotsOk(sys.db)
    ensures SysInv(Next(sys, step))
  {
    hide *;
    NextParts(sys, step);
    StepKeepsDb(sys.db, step);
    SmallestSnapshotGrows(sys.db, step);
    WriteStep(sys, step.ops, After(sys.db, step));
  }

  lemma QuietKeepsInvariant(sys: System, step: Step)
    requires SysInv(sys) && Inv(sys.db) && Ready(sys.db, step) && Enabled(sys.db, step) && !step.Write?
    requires SnapshotsOk(sys.db)
    ensures SysInv(Next(sys, step))
  {
    hide *;
    NextParts(sys, step);
    StepKeepsDb(sys.db, step);
    SmallestSnapshotGrows(sys.db, step);
    QuietStep(sys, After(sys.db, step));
  }

  lemma StepKeepsInvariant(sys: System, step: Step)
    requires SysInv(sys) && Enabled(sys.db, step)
    ensures SysInv(Next(sys, step))
  {
    if step.Write? {
      WriteKeepsInvariant(sys, step);
    } else {
      QuietKeepsInvariant(sys, step);
    }
  }

  ghost predicate IsRun(states: seq<System>, steps: seq<Step>) {
    |states| == |steps| + 1 && states[0] == Initial() &&
    forall i :: 0 <= i < |steps| ==> Enabled(states[i].db, steps[i]) && states[i + 1] == Next(states[i], steps[i])
  }

  lemma EmptyDbOk(db: Db)
    requires db.mem == [] && db.imm.None? && db.snapshots == [] && db.lastSequence == 0
    requires forall l :: 0 <= l < NUM_LEVELS ==> db.version[l] == []
    ensures Inv(db) && All(db) == iset{}
  {
    assert forall p, e :: !At(db, p, e);
    assert forall l, f: FileMeta :: 0 <= l < NUM_LEVELS ==> f !in db.version[l];
  }

  lemma InitialOk()
    ensures SysInv(Initial())
  {
    var db := Initial().db;
    EmptyDbOk(db);
  }

  lemma {:induction false} RunInvariant(states: seq<System>, steps: seq<Step>, i: nat)
    requires IsRun(states, steps) && i < |states|
    ensures SysInv(states[i])
  {
    if i == 0 {
      InitialOk();
    } else {
      RunInvariant(states, steps, i - 1);
      StepKeepsInvariant(states[i - 1], steps[i - 1]);
    }
  }

  /** The layered store is a versioned map: in every state of every run, a read at a live snapshot
      or at the latest sequence number gives the newest value written at or before it. */
  lemma EveryRunReadsHistory(states: seq<System>, steps: seq<Step>, i: nat, k: UserKey, s: nat)
    requires IsRun(states, steps) && i < |states|
    requires s in states[i].db.snapshots || s >= states[i].db.lastSequence
    ensures Inv(states[i].db)
    ensures Reads(All(states[i].db), k, s) == Reads(states[i].history, k, s)
  {
    RunInvariant(states, steps, i);
    var db := states[i].db;
    if s in db.snapshots {
      var j :| 0 <= j < |db.snapshots| && db.snapshots[j] == s;
      assert db.snapshots[0] <= s;
    } else if db.snapshots != [] {
      assert db.snapshots[0] in db.snapshots;
    }
  }

  lemma {:induction false} HistoryGrowsAbove(states: seq<System>, steps: seq<Step>, i: nat, j: nat)
    requires IsRun(states, steps) && i <= j < |states|
    ensures states[i].history <= states[j].history && states[i].db.lastSequence <= states[j].db.lastSequence
    ensures forall e :: e in states[j].history && e !in states[i].history ==> e.key.sequence > states[i].db.lastSequence
  {
    if i == j {
    } else {
      HistoryGrowsAbove(states, steps, i, j - 1);
    }
  }

  /** Repeatable reads: whatever runs in between, a snapshot keeps answering as it did. */
  lemma SnapshotReadsAreStable(states: seq<System>, steps: seq<Step>, i: nat, j: nat, k: UserKey, s: nat)
    requires IsRun(states, steps) && i <= j < |states|
    requires s in states[i].db.snapshots && s in states[j].db.snapshots
    ensures Reads(All(states[i].db), k, s) == Reads(All(states[j].db), k, s)
  {
    EveryRunReadsHistory(states, steps, i, k, s);
    EveryRunReadsHistory(states, steps, j, k, s);
    HistoryGrowsAbove(states, steps, i, j);
    RunInvariant(states, steps, i);
    RunInvariant(states, steps, j);
    var h, h' := states[i].history, states[j].history;
    var added := h' - h;
    assert h + added == h';
    ReadsAfterAdding(h, added, states[i].db.lastSequence, k, s);
  }

  // ---------- reads in terms of the operations written ----------

  /** The operations written by the first `n` steps, oldest first. */
  ghost function WrittenOps(steps: seq<Step>, n: nat): seq<Op>
    requires n <= |steps|
  {
    if n == 0 then [] else WrittenOps(steps, n - 1) + if steps[n - 1].Write? then steps[n - 1].ops else []
  }

  ghost predicate Recorded(history: iset<Entry>, op: Op, sequence: nat) {
    exists e :: e in history && Records(e, op, sequence)
  }

  ghost predicate IsRecord(e: Entry, ops: seq<Op>) {
    1 <= e.key.sequence <= |ops| && Records(e, ops[e.key.sequence - 1], e.key.sequence)
  }

  /** A history holds the operations in order, the first under sequence number 1. */
  ghost predicate RecordsAll(history: iset<Entry>, ops: seq<Op>) {
    (forall e :: e in history ==> IsRecord(e, ops)) &&
    forall j :: 0 <= j < |ops| ==> Recorded(history, ops[j], j + 1)
  }

  lemma RecordsMore(history: iset<Entry>, ops: seq<Op>, more: seq<Op>)
    requires RecordsAll(history, ops)
    ensures RecordsAll(history + NewEntries(more, |ops| + 1), ops + more)
  {
    hide NewEntries, Records;
    var all, added := ops + more, NewEntries(more, |ops| + 1);
    NewEntriesRecord(more, |ops| + 1);
    forall e | e in history + added ensures IsRecord(e, all) {
      if e in history {
        assert IsRecord(e, ops);
      } else {
        var i :| 0 <= i < |more| && Records(e, more[i], |ops| + 1 + i);
        RecordKey(e, more[i], |ops| + 1 + i);
      }
    }
    forall j | 0 <= j < |all| ensures Recorded(history + added, all[j], j + 1) {
      if j < |ops| {
        assert Recorded(history, ops[j], j + 1);
      } else {
        var i := j - |ops|;
        var e := RecordOf(more[i], |ops| + 1 + i);
        assert e in added;
      }
    }
  }

  lemma RecordKey(e: Entry, op: Op, sequence: nat)
    requires Records(e, op, sequence)
    ensures e.key.user == op.key && e.key.sequence == sequence
  {
  }

  lemma RecordOf(op: Op, sequence: nat) returns (e: Entry)
    ensures Records(e, op, sequence)
  {
    e := Entry(InternalKey(op.key, sequence, op.kind), if op.kind.Value? then op.value else []);
  }

  lemma {:induction false} HistoryRecordsOps(states: seq<System>, steps: seq<Step>, i: nat)
    requires IsRun(states, steps) && i < |states|
    ensures states[i].db.lastSequence == |WrittenOps(steps, i)|
    ensures RecordsAll(states[i].history, WrittenOps(steps, i))
  {
    hide Inv, NewEntries, RecordsAll, Agree;
    assert i > 0 ==> steps[i - 1].Write? || WrittenOps(steps, i - 1) + [] == WrittenOps(steps, i - 1);
    if i == 0 {
      NothingRecorded();
    } else {
      HistoryRecordsOps(states, steps, i - 1);
      RunInvariant(states, steps, i - 1);
      var db, step := states[i - 1].db, steps[i - 1];
      NextParts(states[i - 1], step);
      LastSequenceGrows(db, step);
      if step.Write? {
        RecordsMore(states[i - 1].history, WrittenOps(steps, i - 1), step.ops);
      }
    }
  }

  lemma NothingRecorded()
    ensures RecordsAll(iset{}, [])
  {
  }

  lemma LastSequenceGrows(db: Db, step: Step)
    requires Inv(db) && Enabled(db, step)
    ensures After(db, step).lastSequence == db.lastSequence + if step.Write? then |step.ops| else 0
  {
    SmallestSnapshotGrows(db, step);
  }

  /** Operation `j` is the last one for its key among the first `n`. */
  ghost predicate LastFor(ops: seq<Op>, n: nat, j: nat)
    requires j < n <= |ops|
  {
    forall l :: j < l < n ==> ops[l].key != ops[j].key
  }

  /** What a read must answer after the first `n` operations: the value of the last put of the key,
      nothing after a deletion or when the key was never written. */
  ghost predicate AnswersOps(ops: seq<Op>, n: nat, k: UserKey, r: Option<Bytes>)
    requires n <= |ops|
  {
    (forall j :: 0 <= j < n && ops[j].key == k && LastFor(ops, n, j) ==>
      r == if ops[j].kind.Value? then Some(ops[j].value) else None) &&
    ((forall j :: 0 <= j < n ==> ops[j].key != k) ==> r == None)
  }

  lemma RecordedReads(history: iset<Entry>, ops: seq<Op>, n: nat, k: UserKey, s: nat)
    requires RecordsAll(history, ops) && UniqueSeqs(history) && n == if s < |ops| then s else |ops|
    ensures AnswersOps(ops, n, k, Reads(history, k, s))
  {
    forall j | 0 <= j < n && ops[j].key == k && LastFor(ops, n, j)
      ensures Reads(history, k, s) == if ops[j].kind.Value? then Some(ops[j].value) else None
    {
      assert Recorded(history, ops[j], j + 1);
      var e :| e in history && Records(e, ops[j], j + 1);
      forall o | o in history && Matches(o, k, s) ensures o.key.sequence <= j + 1 {
        assert IsRecord(o, ops);
      }
      assert IsNewest(history, k, s, e);
      ReadsNewest(history, k, s, e);
    }
    if forall j :: 0 <= j < n ==> ops[j].key != k {
      forall o | o in history ensures !Matches(o, k, s) {
        assert IsRecord(o, ops);
      }
      NoMatchReads(history, k, s);
    }
  }

  /** Reading what was written.  In every state of every run, at a live snapshot or later, a read at
      sequence number `s` gives the value of the last put of the key among the first `s` operations
      of the run, and nothing if that operation is a deletion or there is none. */
  lemma ReadsAreOps(states: seq<System>, steps: seq<Step>, i: nat, k: UserKey, s: nat)
    requires IsRun(states, steps) && i < |states|
    requires s in states[i].db.snapshots || s >= states[i].db.lastSequence
    ensures var ops := WrittenOps(steps, i);
      AnswersOps(ops, if s < |ops| then s else |ops|, k, Reads(All(states[i].db), k, s))
  {
    EveryRunReadsHistory(states, steps, i, k, s);
    HistoryRecordsOps(states, steps, i);
    RunInvariant(states, steps, i);
    var ops := WrittenOps(steps, i);
    RecordedReads(states[i].history, ops, if s < |ops| then s else |ops|, k, s);
  }

  /** One write: the last operation of the batch for a key decides its reads, and keys that are not
      in the batch read as before. */
  lemma WriteThenRead(states: seq<System>, steps: seq<Step>, i: nat, k: UserKey)
    requires IsRun(states, steps) && i < |steps| && steps[i].Write?
    ensures states[i + 1].db.lastSequence == states[i].db.lastSequence + |steps[i].ops|
    ensures var ops, db' := steps[i].ops, states[i + 1].db;
      forall j :: 0 <= j < |ops| && ops[j].key == k && LastFor(ops, |ops|, j) ==>
        Reads(All(db'), k, db'.lastSequence) == if ops[j].kind.Value? then Some(ops[j].value) else None
    ensures var ops, db, db' := steps[i].ops, states[i].db, states[i + 1].db;
      (forall j :: 0 <= j < |ops| ==> ops[j].key != k) ==>
        Reads(All(db'), k, db'.lastSequence) == Reads(All(db), k, db.lastSequence)
  {
    RunInvariant(states, steps, i);
    AfterWrite(states[i], steps[i], k);
  }

  lemma AfterWrite(sys: System, step: Step, k: UserKey)
    requires SysInv(sys) && Ready(sys.db, step) && Enabled(sys.db, step) && step.Write?
    ensures Next(sys, step).db.lastSequence == sys.db.lastSequence + |step.ops|
    ensures var ops, db' := step.ops, Next(sys, step).db;
      forall j :: 0 <= j < |ops| && ops[j].key == k && LastFor(ops, |ops|, j) ==>
        Reads(All(db'), k, db'.lastSequence) == if ops[j].kind.Value? then Some(ops[j].value) else None
    ensures var ops, db, db' := step.ops, sys.db, Next(sys, step).db;
      (forall j :: 0 <= j < |ops| ==> ops[j].key != k) ==>
        Reads(All(db'), k, db'.lastSequence) == Reads(All(db), k, db.lastSequence)
  {
    hide *;
    WriteParts(sys, step);
    var db, db', ops := sys.db, Next(sys, step).db, step.ops;
    WriteInv(db, ops);
    AllBounded(db);
    AllBounded(db');
    BatchReads(All(db), All(db'), ops, db.lastSequence, k);
  }

  lemma WriteParts(sys: System, step: Step)
    requires SysInv(sys) && Enabled(sys.db, step) && step.Write?
    ensures Inv(sys.db) && Enabled(sys.db, Write(step.ops))
    ensures Next(sys, step).db == After(sys.db, Write(step.ops))
    ensures Next(sys, step).db.lastSequence == sys.db.lastSequence + |step.ops|
  {
    hide Inv;
    NextParts(sys, step);
  }

  lemma BatchReads(all: iset<Entry>, all': iset<Entry>, ops: seq<Op>, last: nat, k: UserKey)
    requires UniqueSeqs(all) && UniqueSeqs(all') && forall e :: e in all ==> e.key.sequence <= last
    requires forall e :: e in all' <==>
      e in all || exists i :: 0 <= i < |ops| && Records(e, ops[i], last + 1 + i)
    ensures forall j :: 0 <= j < |ops| && ops[j].key == k && LastFor(ops, |ops|, j) ==>
      Reads(all', k, last + |ops|) == if ops[j].kind.Value? then Some(ops[j].value) else None
    ensures (forall j :: 0 <= j < |ops| ==> ops[j].key != k) ==> Reads(all', k, last + |ops|) == Reads(all, k, last)
  {
    var s := last + |ops|;
    forall j | 0 <= j < |ops| && ops[j].key == k && LastFor(ops, |ops|, j)
      ensures Reads(all', k, s) == if ops[j].kind.Value? then Some(ops[j].value) else None
    {
      var e := Entry(InternalKey(k, last + 1 + j, ops[j].kind), if ops[j].kind.Value? then ops[j].value else []);
      assert Records(e, ops[j], last + 1 + j);
      assert IsNewest(all', k, s, e);
      ReadsNewest(all', k, s, e);
    }
    if forall j :: 0 <= j < |ops| ==> ops[j].key != k {
      forall e ensures (e in all' && Matches(e, k, s)) <==> (e in all && Matches(e, k, last)) {
      }
      if NoMatch(all, k, last) {
        NoMatchReads(all, k, last);
        NoMatchReads(all', k, s);
      } else {
        NewestExists(all, k, last);
        var e :| IsNewest(all, k, last, e);
        assert IsNewest(all', k, s, e);
        ReadsNewest(all, k, last, e);
        ReadsNewest(all', k, s, e);
      }
    }
  }

  /** The lookup code itself, in any state of any run. */
  method GetInRun(ghost states: seq<System>, ghost steps: seq<Step>, ghost i: nat, db: Db, k: UserKey, s: nat)
    returns (r: Option<Bytes>)
    requires IsRun(states, steps) && i < |states| && db == states[i].db
    requires s in db.snapshots || s >= db.lastSequence
    ensures r == Reads(states[i].history, k, s)
    ensures var ops := WrittenOps(steps, i); AnswersOps(ops, if s < |ops| then s else |ops|, k, r)
  {
    EveryRunReadsHistory(states, steps, i, k, s);
    ReadsAreOps(states, steps, i, k, s);
    r := Get(db, k, s);
  }
}
