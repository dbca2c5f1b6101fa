/** Why compactions need the conditions of `Harmless`: a run from the empty store to two level-3
    files that split one user key, and two steps the code would take from there.  A move of the
    first file, and a merge that takes only the first file along, each bring a deleted value back.
  */
module BoundarySplit {
  import opened Keys
  import opened Versions
  import opened CompactionPick
  import opened CompactionWork
  import opened Sequences
  import opened Lsm
  import opened LsmSteps
  import opened LsmCompactions
  import opened LsmRuns

  const J: UserKey := 1.0
  const K: UserKey := 2.0

  const OLD := Entry(InternalKey(K, 1, Value), [7])
  const MARKER := Entry(InternalKey(K, 2, Deletion), [])
  const OTHER := Entry(InternalKey(J, 3, Value), [8])
  const LATER := Entry(InternalKey(J, 4, Value), [9])

  const WHOLE_FILE := FileMeta(3, 1, OTHER.key, OLD.key)
  const MARKER_FILE := FileMeta(4, 1, OTHER.key, MARKER.key)
  const OLD_FILE := FileMeta(5, 1, OLD.key, OLD.key)
  const LATER_FILE := FileMeta(7, 1, LATER.key, LATER.key)
  const MERGED_FILE := FileMeta(8, 1, LATER.key, LATER.key)

  ghost predicate Reachable(sys: System) {
    exists states, steps :: IsRun(states, steps) && states[|steps|] == sys
  }

  lemma ReachableNext(sys: System, step: Step)
    requires Reachable(sys) && Enabled(sys.db, step)
    ensures Reachable(Next(sys, step))
  {
    var states, steps :| IsRun(states, steps) && states[|steps|] == sys;
    RunExtends(states, steps, step);
  }

  lemma RunExtends(states: seq<System>, steps: seq<Step>, step: Step)
    requires IsRun(states, steps) && Enabled(states[|steps|].db, step)
    ensures Reachable(Next(states[|steps|], step))
  {
    var states', steps' := states + [Next(states[|steps|], step)], steps + [step];
    forall i | 0 <= i < |steps'|
      ensures Enabled(states'[i].db, steps'[i]) && states'[i + 1] == Next(states'[i], steps'[i])
    {
      assert i < |steps| ==> states'[i] == states[i] && steps'[i] == steps[i] && states'[i + 1] == states[i + 1];
    }
    assert IsRun(states', steps');
  }

  lemma ReachableOk(sys: System)
    requires Reachable(sys)
    ensures SysInv(sys)
  {
    var states, steps :| IsRun(states, steps) && states[|steps|] == sys;
    RunInvariant(states, steps, |steps|);
  }

  /** All files are at one level. */
  ghost predicate Holds(v: Version, level: nat, files: FileList) {
    level < NUM_LEVELS && v[level] == files && forall l :: 0 <= l < NUM_LEVELS && l != level ==> v[l] == []
  }

  lemma Distinct(files: FileList, i: nat, j: nat)
    requires SortedFiles(files) && i < j < |files|
    ensures files[i] in files && files[j] in files && files[i] != files[j]
  {
    assert FileBefore(files[i], files[j]);
  }

  lemma OnlyOne(files: FileList, f: FileMeta)
    requires SortedFiles(files) && f in files && forall g :: g in files ==> g == f
    ensures files == [f]
  {
    if |files| > 1 {
      Distinct(files, 0, 1);
    }
  }

  lemma OnlyTwo(files: FileList, f: FileMeta, g: FileMeta)
    requires SortedFiles(files) && f in files && g in files && FileBefore(f, g)
    requires forall h :: h in files ==> h == f || h == g
    ensures files == [f, g]
  {
    Distinct(files, 0, 1);
    if |files| > 2 {
      Distinct(files, 1, 2);
      Distinct(files, 0, 2);
    }
  }

  lemma HeadIn(files: FileList)
    requires files != []
    ensures files[0] in files
  {
  }

  lemma NoFiles(files: FileList)
    requires forall f :: f !in files
    ensures files == []
  {
    if files != [] {
      HeadIn(files);
    }
  }

  // ---------- the run ----------

  /** A store without files whose only content is in the memtable. */
  ghost predicate InMemory(sys: System, mem: Run, snapshots: seq<nat>, last: nat) {
    var db := sys.db;
    db.mem == mem && db.imm.None? && db.snapshots == snapshots && db.lastSequence == last && db.nextFile == 2 &&
    Holds(db.version, 0, []) && sys.history == Of(mem)
  }

  lemma FirstWrite(sys: System) returns (sys': System)
    requires Reachable(sys) && InMemory(sys, [], [], 0)
    ensures Reachable(sys') && InMemory(sys', [OLD], [1], 1)
  {
    var write := Write([Op(Value, K, [7])]);
    assert EntryOf(Op(Value, K, [7]), 1) == OLD;
    assert AddBatch(sys.db.mem, [Op(Value, K, [7])], 1) == [OLD];
    OneNewEntry(Op(Value, K, [7]), 1);
    ReachableNext(sys, write);
    sys' := Next(sys, write);
    assert InMemory(sys', [OLD], [], 1);
    ReachableNext(sys', TakeSnapshot);
    sys' := Next(sys', TakeSnapshot);
  }

  lemma OneNewEntry(op: Op, sequence: nat)
    ensures NewEntries([op], sequence) == iset{EntryOf(op, sequence)}
  {
    assert [op][0] == op;
  }

  lemma TwoNewEntries(op: Op, op': Op, sequence: nat)
    ensures NewEntries([op, op'], sequence) == iset{EntryOf(op, sequence), EntryOf(op', sequence + 1)}
  {
    var ops := [op, op'];
    assert EntryOf(ops[0], sequence + 0) in NewEntries(ops, sequence);
    assert EntryOf(ops[1], sequence + 1) in NewEntries(ops, sequence);
  }

  lemma SecondBatch()
    ensures AddBatch([OLD], [Op(Deletion, K, []), Op(Value, J, [8])], 2) == [OTHER, MARKER, OLD]
  {
    var ops := [Op(Deletion, K, []), Op(Value, J, [8])];
    assert EntryOf(ops[0], 2) == MARKER && EntryOf(ops[1], 3) == OTHER;
    assert InsertEntry([OLD], MARKER) == [MARKER, OLD];
    assert ops[1..] == [ops[1]] && ops[1..][1..] == [];
    assert AddBatch([OLD], ops, 2) == AddBatch([MARKER, OLD], ops[1..], 3);
    assert AddBatch([MARKER, OLD], ops[1..], 3) == InsertEntry([MARKER, OLD], OTHER);
  }

  lemma SecondWrite(sys: System) returns (sys': System)
    requires Reachable(sys) && InMemory(sys, [OLD], [1], 1)
    ensures Reachable(sys') && InMemory(sys', [OTHER, MARKER, OLD], [1], 3)
  {
    var write := Write([Op(Deletion, K, []), Op(Value, J, [8])]);
    SecondBatch();
    TwoNewEntries(Op(Deletion, K, []), Op(Value, J, [8]), 2);
    ReachableNext(sys, write);
    sys' := Next(sys, write);
    assert sys'.history == Of([OTHER, MARKER, OLD]);
  }

  /** What an installed edit leaves at each level. */
  lemma InstalledOne(db: Db, db': Db, edit: FileEdit, level: nat, f: FileMeta)
    requires FilesOk(db) && TablesKept(db, db') && SoundEdit(db, db', edit)
    requires db'.version == Install(db.version, edit) && level < NUM_LEVELS
    requires forall l, g :: 0 <= l < NUM_LEVELS ==> (Listed(db.version, edit, l, g) <==> l == level && g == f)
    ensures FilesOk(db') && Holds(db'.version, level, [f])
  {
    InstallOk(db, db', edit);
    assert Listed(db.version, edit, level, f);
    OnlyOne(db'.version[level], f);
    forall l | 0 <= l < NUM_LEVELS && l != level ensures db'.version[l] == [] {
      NoFiles(db'.version[l]);
    }
  }

  lemma InstalledTwo(db: Db, db': Db, edit: FileEdit, level: nat, f: FileMeta, g: FileMeta)
    requires FilesOk(db) && TablesKept(db, db') && SoundEdit(db, db', edit)
    requires db'.version == Install(db.version, edit) && level < NUM_LEVELS && FileBefore(f, g)
    requires forall l, h :: 0 <= l < NUM_LEVELS ==>
      (Listed(db.version, edit, l, h) <==> l == level && (h == f || h == g))
    ensures FilesOk(db') && Holds(db'.version, level, [f, g])
  {
    InstallOk(db, db', edit);
    assert Listed(db.version, edit, level, f) && Listed(db.version, edit, level, g);
    OnlyTwo(db'.version[level], f, g);
    forall l | 0 <= l < NUM_LEVELS && l != level ensures db'.version[l] == [] {
      NoFiles(db'.version[l]);
    }
  }

  /** Put K, take a snapshot, delete K, put J, and switch memtables. */
  ghost predicate Switched(sys: System) {
    var db := sys.db;
    db.mem == [] && db.imm == Some([OTHER, MARKER, OLD]) && db.snapshots == [1] && db.lastSequence == 3 &&
    db.nextFile == 3 && Holds(db.version, 0, []) && sys.history == iset{OLD, MARKER, OTHER}
  }

  lemma SwitchedReached() returns (sys: System)
    ensures Reachable(sys) && Switched(sys)
  {
    sys := Initial();
    assert IsRun([sys], []);
    sys := FirstWrite(sys);
    sys := SecondWrite(sys);
    ReachableNext(sys, SwitchMem);
    sys := Next(sys, SwitchMem);
  }

  /** The memtable as one level-2 file. */
  ghost predicate Flushed(sys: System) {
    var db := sys.db;
    db.mem == [] && db.imm.None? && db.snapshots == [1] && db.lastSequence == 3 && db.nextFile == 4 &&
    Holds(db.version, 2, [WHOLE_FILE]) && 3 in db.tables && db.tables[3] == [OTHER, MARKER, OLD] &&
    sys.history == iset{OLD, MARKER, OTHER}
  }

  lemma PickIsTwo(v: Version, lo: UserKey, hi: UserKey)
    requires v[0] == [] && v[1] == [] && v[2] == []
    requires TotalFileSize(Overlapping(v[3], Some(lo), Some(hi))) <= MAX_GRANDPARENT_OVERLAP_BYTES
    ensures PickLevel(v, lo, hi) == 2
  {
    assert PickLevelFrom(v, lo, hi, 1) == PickLevelFrom(v, lo, hi, 2);
  }

  lemma FlushedReached() returns (sys: System)
    ensures Reachable(sys) && Flushed(sys)
  {
    var before := SwitchedReached();
    ReachableOk(before);
    ReachableNext(before, Flush(1));
    sys := Next(before, Flush(1));
    FlushWhole(before.db, sys.db);
  }

  lemma FlushWhole(db: Db, db': Db)
    requires Inv(db) && db.imm == Some([OTHER, MARKER, OLD]) && db.nextFile == 3 && Holds(db.version, 0, [])
    requires db' == After(db, Flush(1))
    ensures Holds(db'.version, 2, [WHOLE_FILE])
  {
    var run := db.imm.value;
    PickIsTwo(db.version, J, K);
    FlushSound(db, db', 1, run);
    assert FlushEdit(db, 1, run) == FileEdit({}, [(2, WHOLE_FILE)]);
    InstalledOne(db, db', FlushEdit(db, 1, run), 2, WHOLE_FILE);
  }

  // ---------- the split ----------

  ghost predicate TableHolds(db: Db, number: nat, run: Run) {
    number in db.tables && db.tables[number] == run
  }

  /** Two level-3 files, the first ending and the second starting with user key K. */
  ghost predicate Split(sys: System, snapshots: seq<nat>) {
    var db := sys.db;
    db.mem == [] && db.imm.None? && db.snapshots == snapshots && db.lastSequence == 3 && db.nextFile == 6 &&
    Holds(db.version, 3, [MARKER_FILE, OLD_FILE]) && TableHolds(db, 4, [OTHER, MARKER]) && TableHolds(db, 5, [OLD]) &&
    sys.history == iset{OLD, MARKER, OTHER}
  }

  function CutOutputs(): seq<Run> {
    [[OTHER, MARKER], [OLD]]
  }

  function CutStep(): Step {
    Merge(2, [WHOLE_FILE], [], [OTHER, MARKER, OLD], CutOutputs(), [1, 1])
  }

  lemma CutReady(db: Db)
    requires Holds(db.version, 2, [WHOLE_FILE]) && TableHolds(db, 3, [OTHER, MARKER, OLD]) && db.snapshots == [1]
    ensures Ready(db, CutStep())
    ensures BoundariesClear(db.version, 2, [WHOLE_FILE], [])
  {
    var stream := [OTHER, MARKER, OLD];
    assert WHOLE_FILE in [WHOLE_FILE];
    assert IsStream(db, [WHOLE_FILE], [], stream) by {
      forall e | e in stream ensures exists f :: f in [WHOLE_FILE] + [] && InFile(db, f, e) {
        assert WHOLE_FILE in [WHOLE_FILE] + [] && InFile(db, WHOLE_FILE, e);
      }
    }
    KeptAll(stream, db.version);
  }

  /** With a snapshot between the versions of K, the merge drops nothing. */
  lemma KeptAll(stream: Run, v: Version)
    requires stream == [OTHER, MARKER, OLD]
    ensures Flatten(CutOutputs()) == Kept(stream, |stream|, 1, v, 2)
  {
    assert Kept(stream, 1, 1, v, 2) == [OTHER];
    assert Kept(stream, 2, 1, v, 2) == [OTHER, MARKER];
    assert Flatten([[OTHER, MARKER]]) == [OTHER, MARKER];
    assert CutOutputs()[..1] == [[OTHER, MARKER]];
  }

  lemma CutEdit(db: Db)
    requires Holds(db.version, 2, [WHOLE_FILE]) && db.nextFile == 4
    ensures var edit := MergeEdit(db, 2, [WHOLE_FILE], [], CutOutputs(), [1, 1]);
      forall l, h :: 0 <= l < NUM_LEVELS ==>
        (Listed(db.version, edit, l, h) <==> l == 3 && (h == MARKER_FILE || h == OLD_FILE))
  {
    var edit := MergeEdit(db, 2, [WHOLE_FILE], [], CutOutputs(), [1, 1]);
    assert edit.added == [(3, MARKER_FILE), (3, OLD_FILE)];
    assert WHOLE_FILE in [WHOLE_FILE] && (2, 3) in edit.deleted;
  }

  lemma CutEffect(db: Db, db': Db)
    requires Inv(db) && Holds(db.version, 2, [WHOLE_FILE]) && Ready(db, CutStep()) && db.nextFile == 4
    requires db' == After(db, CutStep())
    ensures Holds(db'.version, 3, [MARKER_FILE, OLD_FILE]) && db'.nextFile == 6
    ensures TableHolds(db', 4, [OTHER, MARKER]) && TableHolds(db', 5, [OLD])
  {
    MergeOutputsOk(db, CutStep());
    MergeSound(db, db', 2, [WHOLE_FILE], [], CutOutputs(), [1, 1]);
    CutEdit(db);
    InstalledTwo(db, db', MergeEdit(db, 2, [WHOLE_FILE], [], CutOutputs(), [1, 1]), 3, MARKER_FILE, OLD_FILE);
  }

  lemma CutReached() returns (sys: System)
    ensures Reachable(sys) && Split(sys, [1])
  {
    hide Reachable, AgeOrdered, UniquePlaces, Bounded, FilesOk;
    var before := FlushedReached();
    ReachableOk(before);
    CutReady(before.db);
    ClearBoundariesSuffice(before.db, CutStep());
    ReachableNext(before, CutStep());
    sys := Next(before, CutStep());
    CutEffect(before.db, sys.db);
  }

  lemma SplitReached() returns (sys: System)
    ensures Reachable(sys) && Split(sys, [])
  {
    var cut := CutReached();
    ReachableNext(cut, ReleaseSnapshot(0));
    sys := Next(cut, ReleaseSnapshot(0));
  }

  // ---------- a move that reads stale ----------

  lemma KeyDeleted(history: iset<Entry>, s: nat)
    requires UniqueSeqs(history) && MARKER in history && s >= 2
    requires forall e :: e in history && e.key.user == K ==> e == OLD || e == MARKER
    ensures Reads(history, K, s) == None
  {
    assert IsNewest(history, K, s, MARKER);
    ReadsNewest(history, K, s, MARKER);
  }

  /** The files of the store, with the two entries for K apart and the older one above or beside. */
  lemma OldDecides(db: Db, s: nat, r: Option<Bytes>)
    requires db.mem == [] && db.imm.None? && s >= 1 && UniqueSeqs(Stored(db, InLevel(3)))
    requires db.version[0] == [] && db.version[1] == [] && db.version[2] == []
    requires OLD_FILE in db.version[3] && TableHolds(db, 5, [OLD])
    requires forall e :: e in Stored(db, InLevel(3)) && e.key.user == K ==> e == OLD
    requires GetReturns(db, K, s, r)
    ensures r == Some([7])
  {
    hide Overlaps;
    assert InFile(db, OLD_FILE, OLD) && At(db, InLevel(3), OLD);
    assert Decides(db, InLevel(3), K, s, OLD);
    GetReturnsOnly(db, InLevel(3), K, s, OLD, r);
  }

  lemma MoveReady(db: Db)
    requires Holds(db.version, 3, [MARKER_FILE, OLD_FILE])
    ensures Ready(db, Move(3, MARKER_FILE)) && !BoundaryClear(db.version[3], [MARKER_FILE])
  {
    assert MARKER_FILE in [MARKER_FILE] && OLD_FILE in db.version[3];
  }

  lemma MoveListed(v: Version, l: nat, f: FileMeta)
    requires Holds(v, 3, [MARKER_FILE, OLD_FILE]) && l < NUM_LEVELS
    ensures Listed(v, MoveEdit(3, MARKER_FILE), l, f) <==>
      (l == 3 && f == OLD_FILE) || (l == 4 && f == MARKER_FILE)
  {
    var edit := MoveEdit(3, MARKER_FILE);
    assert edit.added == [(4, MARKER_FILE)] && edit.deleted == {(3, 4)};
    assert OLD_FILE in [MARKER_FILE, OLD_FILE];
  }

  lemma OldStored(db: Db)
    requires TableHolds(db, 5, [OLD]) && forall f :: f in db.version[3] <==> f == OLD_FILE
    ensures Stored(db, InLevel(3)) == iset{OLD}
  {
    assert OLD_FILE in db.version[3] && InFile(db, OLD_FILE, OLD);
  }

  lemma MoveEffect(db: Db, db': Db)
    requires FilesOk(db) && Holds(db.version, 3, [MARKER_FILE, OLD_FILE]) && TableHolds(db, 5, [OLD])
    requires ValidPick(db.version, 3, [MARKER_FILE], [])
    requires db' == db.(version := Install(db.version, MoveEdit(3, MARKER_FILE)))
    ensures FilesOk(db') && db'.version[0] == [] && db'.version[1] == [] && db'.version[2] == []
    ensures OLD_FILE in db'.version[3] && Stored(db', InLevel(3)) == iset{OLD}
  {
    MoveCompacts(db, db', 3, MARKER_FILE);
    forall l, f | 0 <= l < NUM_LEVELS
      ensures f in db'.version[l] <==> (l == 3 && f == OLD_FILE) || (l == 4 && f == MARKER_FILE)
    {
      MoveListed(db.version, l, f);
    }
    NoFiles(db'.version[0]);
    NoFiles(db'.version[1]);
    NoFiles(db'.version[2]);
    OldStored(db');
  }

  lemma MovedReads(db: Db, db': Db)
    requires Inv(db) && Holds(db.version, 3, [MARKER_FILE, OLD_FILE]) && TableHolds(db, 5, [OLD])
    requires db.mem == [] && db.imm.None? && db.lastSequence == 3
    requires Ready(db, Move(3, MARKER_FILE)) && db' == After(db, Move(3, MARKER_FILE))
    ensures Readable(db') && forall r :: GetReturns(db', K, 3, r) ==> r == Some([7])
  {
    hide AgeOrdered, UniquePlaces, Bounded, SnapshotsOk, NumbersUnique, TablesOk, VersionOk;
    MoveEffect(db, db');
    forall r | GetReturns(db', K, 3, r) ensures r == Some([7]) {
      OldDecides(db', 3, r);
    }
  }

  /** In a reached store, a move that the code would make puts the deletion marker below the value
      it deletes; whatever `Get` then returns at the latest sequence number, it is the value. */
  lemma MoveReadsStale() returns (sys: System)
    ensures Reachable(sys) && Ready(sys.db, Move(3, MARKER_FILE))
    ensures !BoundaryClear(sys.db.version[3], [MARKER_FILE])
    ensures Reads(sys.history, K, sys.db.lastSequence) == None
    ensures var db' := After(sys.db, Move(3, MARKER_FILE));
      Readable(db') && forall r :: GetReturns(db', K, db'.lastSequence, r) ==> r == Some([7])
  {
    sys := SplitReached();
    ReachableOk(sys);
    KeyDeleted(sys.history, 3);
    MoveReady(sys.db);
    MovedReads(sys.db, After(sys.db, Move(3, MARKER_FILE)));
  }

  // ---------- a merge that drops a marker ----------

  /** As `Split`, with a later value of J in a level-2 file of its own. */
  ghost predicate SplitBelow(sys: System) {
    var db := sys.db;
    db.mem == [] && db.imm.None? && db.snapshots == [] && db.lastSequence == 4 && db.nextFile == 8 &&
    LaterAbove(db.version) && TableHolds(db, 7, [LATER]) && TableHolds(db, 4, [OTHER, MARKER]) &&
    TableHolds(db, 5, [OLD]) && sys.history == iset{OLD, MARKER, OTHER, LATER}
  }

  ghost predicate LaterAbove(v: Version) {
    v[2] == [LATER_FILE] && v[3] == [MARKER_FILE, OLD_FILE] &&
    forall l :: 0 <= l < NUM_LEVELS && l != 2 && l != 3 ==> v[l] == []
  }

  ghost predicate LaterSwitched(sys: System) {
    var db := sys.db;
    db.mem == [] && db.imm == Some([LATER]) && db.snapshots == [] && db.lastSequence == 4 && db.nextFile == 7 &&
    Holds(db.version, 3, [MARKER_FILE, OLD_FILE]) && TableHolds(db, 4, [OTHER, MARKER]) && TableHolds(db, 5, [OLD]) &&
    sys.history == iset{OLD, MARKER, OTHER, LATER}
  }

  lemma LaterWritten() returns (sys: System)
    ensures Reachable(sys) && LaterSwitched(sys)
  {
    var split := SplitReached();
    var op := Op(Value, J, [9]);
    assert EntryOf(op, 4) == LATER;
    assert AddBatch(split.db.mem, [op], 4) == [LATER];
    OneNewEntry(op, 4);
    ReachableNext(split, Write([op]));
    var written := Next(split, Write([op]));
    ReachableNext(written, SwitchMem);
    sys := Next(written, SwitchMem);
  }

  lemma LaterOverlaps(files: FileList)
    requires files == [MARKER_FILE, OLD_FILE]
    ensures TotalFileSize(Overlapping(files, Some(J), Some(J))) == 1
  {
    assert files[1..] == [OLD_FILE];
    assert Overlapping(files[1..], Some(J), Some(J)) == [];
    assert Overlapping(files, Some(J), Some(J)) == [MARKER_FILE];
  }

  lemma LaterEdit(db: Db)
    requires db.nextFile == 7 && Holds(db.version, 3, [MARKER_FILE, OLD_FILE])
    ensures FlushEdit(db, 1, [LATER]) == FileEdit({}, [(2, LATER_FILE)])
  {
    LaterOverlaps(db.version[3]);
    PickIsTwo(db.version, J, J);
  }

  lemma LaterInstalled(db: Db, db': Db, edit: FileEdit)
    requires FilesOk(db) && TablesKept(db, db') && SoundEdit(db, db', edit) && edit == FileEdit({}, [(2, LATER_FILE)])
    requires Holds(db.version, 3, [MARKER_FILE, OLD_FILE]) && db'.version == Install(db.version, edit)
    ensures LaterAbove(db'.version)
  {
    hide SoundEdit, TablesKept, FileOk, NumbersUnique, Install;
    InstallOk(db, db', edit);
    forall l, f | 0 <= l < NUM_LEVELS
      ensures f in db'.version[l] <==> (l == 2 && f == LATER_FILE) || (l == 3 && (f == MARKER_FILE || f == OLD_FILE))
    {
      assert f in db'.version[l] <==> Listed(db.version, edit, l, f);
    }
    OnlyOne(db'.version[2], LATER_FILE);
    OnlyTwo(db'.version[3], MARKER_FILE, OLD_FILE);
    forall l | 0 <= l < NUM_LEVELS && l != 2 && l != 3 ensures db'.version[l] == [] {
      NoFiles(db'.version[l]);
    }
  }

  lemma FlushLater(db: Db, db': Db)
    requires Inv(db) && db.imm == Some([LATER]) && db.nextFile == 7 && Holds(db.version, 3, [MARKER_FILE, OLD_FILE])
    requires db' == After(db, Flush(1))
    ensures LaterAbove(db'.version)
  {
    LaterEdit(db);
    FlushSound(db, db', 1, [LATER]);
    LaterInstalled(db, db', FlushEdit(db, 1, [LATER]));
  }

  lemma SplitBelowReached() returns (sys: System)
    ensures Reachable(sys) && SplitBelow(sys)
  {
    hide Reachable, AgeOrdered, UniquePlaces, Bounded, FilesOk;
    var before := LaterWritten();
    ReachableOk(before);
    ReachableNext(before, Flush(1));
    sys := Next(before, Flush(1));
    FlushLater(before.db, sys.db);
  }

  function DropStep(): Step {
    Merge(2, [LATER_FILE], [MARKER_FILE], [LATER, OTHER, MARKER], [[LATER]], [1])
  }

  lemma DropKeeps(stream: Run, v: Version)
    requires stream == [LATER, OTHER, MARKER] && LaterAbove(v)
    ensures Flatten([[LATER]]) == Kept(stream, |stream|, 4, v, 2)
  {
    assert BaseLevel(v, 2, K);
    assert Kept(stream, 1, 4, v, 2) == [LATER];
    assert Drops(stream, 1, 4, v, 2) && Drops(stream, 2, 4, v, 2);
  }

  lemma DropReady(db: Db)
    requires LaterAbove(db.version) && db.snapshots == [] && db.lastSequence == 4
    requires TableHolds(db, 7, [LATER]) && TableHolds(db, 4, [OTHER, MARKER])
    ensures Ready(db, DropStep())
    ensures BoundaryClear(db.version[2], [LATER_FILE]) && !BoundaryClear(db.version[3], [MARKER_FILE])
  {
    var stream, inputs := [LATER, OTHER, MARKER], [LATER_FILE] + [MARKER_FILE];
    assert LATER_FILE in [LATER_FILE] && MARKER_FILE in [MARKER_FILE] && OLD_FILE in db.version[3];
    assert LATER_FILE in inputs && MARKER_FILE in inputs;
    assert InFile(db, LATER_FILE, LATER) && InFile(db, MARKER_FILE, OTHER) && InFile(db, MARKER_FILE, MARKER);
    assert IsStream(db, [LATER_FILE], [MARKER_FILE], stream);
    DropKeeps(stream, db.version);
  }

  lemma DropEdit(db: Db)
    requires LaterAbove(db.version) && db.nextFile == 8
    ensures var edit := MergeEdit(db, 2, [LATER_FILE], [MARKER_FILE], [[LATER]], [1]);
      forall l, h :: 0 <= l < NUM_LEVELS ==>
        (Listed(db.version, edit, l, h) <==> l == 3 && (h == MERGED_FILE || h == OLD_FILE))
  {
    var edit := MergeEdit(db, 2, [LATER_FILE], [MARKER_FILE], [[LATER]], [1]);
    assert edit.added == [(3, MERGED_FILE)];
    assert LATER_FILE in [LATER_FILE] && MARKER_FILE in [MARKER_FILE];
    assert (2, 7) in edit.deleted && (3, 4) in edit.deleted;
    assert forall p :: p in edit.deleted ==> p == (2, 7) || p == (3, 4);
  }

  lemma DropEffect(db: Db, db': Db)
    requires Inv(db) && LaterAbove(db.version) && Ready(db, DropStep()) && db.nextFile == 8
    requires TableHolds(db, 5, [OLD]) && db' == After(db, DropStep())
    ensures FilesOk(db') && Holds(db'.version, 3, [MERGED_FILE, OLD_FILE])
    ensures TableHolds(db', 8, [LATER]) && TableHolds(db', 5, [OLD])
  {
    MergeOutputsOk(db, DropStep());
    MergeSound(db, db', 2, [LATER_FILE], [MARKER_FILE], [[LATER]], [1]);
    DropEdit(db);
    InstalledTwo(db, db', MergeEdit(db, 2, [LATER_FILE], [MARKER_FILE], [[LATER]], [1]), 3, MERGED_FILE, OLD_FILE);
  }

  lemma MergedStored(db: Db)
    requires Holds(db.version, 3, [MERGED_FILE, OLD_FILE]) && TableHolds(db, 8, [LATER]) && TableHolds(db, 5, [OLD])
    ensures forall e :: e in Stored(db, InLevel(3)) <==> e == LATER || e == OLD
  {
    assert MERGED_FILE in db.version[3] && OLD_FILE in db.version[3];
    assert InFile(db, MERGED_FILE, LATER) && InFile(db, OLD_FILE, OLD);
  }

  lemma DroppedReads(db: Db, db': Db)
    requires Inv(db) && LaterAbove(db.version) && db.nextFile == 8 && TableHolds(db, 5, [OLD])
    requires db.mem == [] && db.imm.None? && db.lastSequence == 4
    requires Ready(db, DropStep()) && db' == After(db, DropStep())
    ensures Readable(db') && forall r :: GetReturns(db', K, 4, r) ==> r == Some([7])
  {
    hide AgeOrdered, UniquePlaces, Bounded, SnapshotsOk, NumbersUnique, TablesOk, VersionOk;
    DropEffect(db, db');
    MergedStored(db');
    forall r | GetReturns(db', K, 4, r) ensures r == Some([7]) {
      OldDecides(db', 4, r);
    }
  }

  /** In a reached store, a merge whose boundary is clear at its own level but not at the next one
      drops the deletion marker, and the deleted value, left behind, is read again. */
  lemma MergeReadsStale() returns (sys: System)
    ensures Reachable(sys) && Ready(sys.db, DropStep())
    ensures BoundaryClear(sys.db.version[2], [LATER_FILE]) && !BoundaryClear(sys.db.version[3], [MARKER_FILE])
    ensures Reads(sys.history, K, sys.db.lastSequence) == None
    ensures var db' := After(sys.db, DropStep());
      Readable(db') && forall r :: GetReturns(db', K, db'.lastSequence, r) ==> r == Some([7])
  {
    hide Reachable, AgeOrdered, UniquePlaces, Bounded, FilesOk, Ready;
    sys := SplitBelowReached();
    ReachableOk(sys);
    KeyDeleted(sys.history, 4);
    DropReady(sys.db);
    DroppedReads(sys.db, After(sys.db, DropStep()));
  }
}
