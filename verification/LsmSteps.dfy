/** The steps a store can take: writes, memtable switches, flushes, trivial moves, merge
    compactions and snapshots, and the proof that each of them keeps the store's invariant.
  */
module LsmSteps {
  import opened Keys
  import opened Versions
  import opened CompactionPick
  import opened CompactionWork
  import opened Sequences
  import opened Lsm

  // ---------- writes ----------

  function EntryOf(op: Op, sequence: nat): Entry {
    Entry(InternalKey(op.key, sequence, op.kind), if op.kind.Value? then op.value else [])
  }

  /** Ordered insertion into a memtable. */
  function InsertEntry(run: Run, e: Entry): Run {
    if run == [] || Less(e.key, run[0].key) then [e] + run else [run[0]] + InsertEntry(run[1..], e)
  }

  /** A batch takes consecutive sequence numbers from `sequence` on. */
  function AddBatch(run: Run, ops: seq<Op>, sequence: nat): Run
    decreases |ops|
  {
    if ops == [] then run else AddBatch(InsertEntry(run, EntryOf(ops[0], sequence)), ops[1..], sequence + 1)
  }

  ghost function NewEntries(ops: seq<Op>, sequence: nat): iset<Entry> {
    iset i | 0 <= i < |ops| :: EntryOf(ops[i], sequence + i)
  }

  lemma {:induction false} InsertEntryOk(run: Run, e: Entry)
    requires Sorted(run)
    requires forall o :: o in run ==> o.key.sequence < e.key.sequence
    ensures forall o :: o in InsertEntry(run, e) <==> o in run || o == e
    ensures Sorted(InsertEntry(run, e))
  {
    if run != [] && !Less(e.key, run[0].key) {
      assert run[0] in run;
      InsertEntryOk(run[1..], e);
      var rest := InsertEntry(run[1..], e);
      assert run == [run[0]] + run[1..];
      forall j | 0 <= j < |rest| ensures Less(run[0].key, rest[j].key) {
        assert rest[j] in rest;
      }
    } else if run != [] {
      forall j | 0 <= j < |run| ensures Less(e.key, run[j].key) {
        assert j > 0 ==> Less(run[0].key, run[j].key);
      }
    }
  }

  lemma {:induction false} AddBatchOk(run: Run, ops: seq<Op>, sequence: nat)
    requires Sorted(run)
    requires forall o :: o in run ==> o.key.sequence < sequence
    ensures forall o :: o in AddBatch(run, ops, sequence) <==> o in run || o in NewEntries(ops, sequence)
    ensures Sorted(AddBatch(run, ops, sequence))
    decreases |ops|
  {
    if ops == [] {
    } else {
      var e := EntryOf(ops[0], sequence);
      InsertEntryOk(run, e);
      AddBatchOk(InsertEntry(run, e), ops[1..], sequence + 1);
      NewEntriesSplit(ops, sequence);
    }
  }

  lemma NewEntriesSplit(ops: seq<Op>, sequence: nat)
    requires ops != []
    ensures forall o :: o in NewEntries(ops, sequence) <==>
      o == EntryOf(ops[0], sequence) || o in NewEntries(ops[1..], sequence + 1)
  {
    var later := NewEntries(ops[1..], sequence + 1);
    forall o ensures o in NewEntries(ops, sequence) <==> o == EntryOf(ops[0], sequence) || o in later {
      if o in NewEntries(ops, sequence) {
        var i :| 0 <= i < |ops| && o == EntryOf(ops[i], sequence + i);
        assert i > 0 ==> o == EntryOf(ops[1..][i - 1], sequence + 1 + (i - 1));
      }
      if o in later {
        var i :| 0 <= i < |ops[1..]| && o == EntryOf(ops[1..][i], sequence + 1 + i);
        assert o == EntryOf(ops[i + 1], sequence + (i + 1));
      }
      assert EntryOf(ops[0], sequence) == EntryOf(ops[0], sequence + 0);
    }
  }

  /** `e` stores one operation under one sequence number: a deletion marker has no value. */
  ghost predicate Records(e: Entry, op: Op, sequence: nat) {
    e.key == InternalKey(op.key, sequence, op.kind) && e.value == if op.kind.Value? then op.value else []
  }

  /** The operations of a batch are stored one by one under consecutive sequence numbers. */
  lemma NewEntriesRecord(ops: seq<Op>, sequence: nat)
    ensures forall e :: e in NewEntries(ops, sequence) <==>
      exists i :: 0 <= i < |ops| && Records(e, ops[i], sequence + i)
  {
    forall e ensures e in NewEntries(ops, sequence) <==>
      exists i :: 0 <= i < |ops| && Records(e, ops[i], sequence + i)
    {
      if e in NewEntries(ops, sequence) {
        var i :| 0 <= i < |ops| && e == EntryOf(ops[i], sequence + i);
        assert Records(e, ops[i], sequence + i);
      }
    }
  }

  // ---------- compaction inputs ----------

  /** No file left behind starts with the user key an input of the same level ends with. */
  ghost predicate BoundaryClear(files: FileList, inputs: FileList) {
    forall f, g :: f in inputs && g in files && g !in inputs && Less(f.largest, g.smallest) ==>
      f.largest.user < g.smallest.user
  }

  ghost predicate BoundariesClear(v: Version, level: nat, in0: FileList, in1: FileList)
    requires level + 1 < NUM_LEVELS
  {
    (level > 0 ==> BoundaryClear(v[level], in0)) && BoundaryClear(v[level + 1], in1)
  }

  /** `e` does not come before a file left behind that starts with its user key. */
  ghost predicate ClearOf(files: FileList, inputs: FileList, e: Entry) {
    forall g :: g in files && g !in inputs && e.key.user == g.smallest.user ==> !Less(e.key, g.smallest)
  }

  /** Nothing written to level+1 comes before a left-behind file of `level` that starts with its key. */
  ghost predicate OutputsClear(v: Version, level: nat, in0: FileList, out: iset<Entry>)
    requires level < NUM_LEVELS
  {
    forall e :: e in out ==> ClearOf(v[level], in0, e)
  }

  /** The entries in the files of the two levels that a compaction leaves behind. */
  ghost function LeftBehind(db: Db, level: nat, in0: FileList, in1: FileList): iset<Entry>
    requires level + 1 < NUM_LEVELS
  {
    iset e, f | ((f in db.version[level] && f !in in0) || (f in db.version[level + 1] && f !in in1)) &&
      InFile(db, f, e) :: e
  }

  ghost function SmallestSnapshot(db: Db): nat {
    if db.snapshots == [] then db.lastSequence else db.snapshots[0]
  }

  /** If the entry is dropped although it answers reads at the smallest snapshot (a deletion
      marker), the files left behind show nothing for its key. */
  ghost predicate MarkerClear(db: Db, level: nat, in0: FileList, in1: FileList, stream: Run, i: nat)
    requires level + 1 < NUM_LEVELS && i < |stream|
  {
    var s := SmallestSnapshot(db);
    Drops(stream, i, s, db.version, level) && IsNewest(All(db), stream[i].key.user, s, stream[i])
    ==> Reads(LeftBehind(db, level, in0, in1), stream[i].key.user, s) == None
  }

  ghost predicate MarkersClear(db: Db, level: nat, in0: FileList, in1: FileList, stream: Run)
    requires level + 1 < NUM_LEVELS
  {
    forall i :: 0 <= i < |stream| ==> MarkerClear(db, level, in0, in1, stream, i)
  }

  // ---------- steps ----------

  datatype Step =
    | Write(ops: seq<Op>)
    | SwitchMem
    | Flush(size: nat)
    | Move(level: nat, f: FileMeta)
    | Merge(level: nat, in0: FileList, in1: FileList, stream: Run, outs: seq<Run>, sizes: seq<nat>)
    | TakeSnapshot
    | ReleaseSnapshot(i: nat)

  ghost predicate IsStream(db: Db, in0: FileList, in1: FileList, stream: Run) {
    Sorted(stream) && forall e :: e in stream <==> exists f :: f in in0 + in1 && InFile(db, f, e)
  }

  /** What the code itself checks before it takes the step. */
  ghost predicate Ready(db: Db, step: Step) {
    match step
    case Write(ops) => db.lastSequence + |ops| < MAX_SEQUENCE
    case SwitchMem => db.imm.None?
    case Flush(_) => db.imm.Some?
    case Move(level, f) => ValidPick(db.version, level, [f], [])
    case Merge(level, in0, in1, stream, outs, sizes) =>
      ValidPick(db.version, level, in0, in1) && IsStream(db, in0, in1, stream) &&
      Flatten(outs) == Kept(stream, |stream|, SmallestSnapshot(db), db.version, level) &&
      (forall i :: 0 <= i < |outs| ==> outs[i] != []) && |sizes| == |outs|
    case TakeSnapshot => true
    case ReleaseSnapshot(i) => i < |db.snapshots|
  }

  /** What the code leaves unchecked: that a compaction which splits a user key between an input
      and a file left behind brings nothing old to light. */
  ghost predicate Harmless(db: Db, step: Step)
    requires Ready(db, step)
  {
    match step
    case Move(level, f) => OutputsClear(db.version, level, [f], Of(Contents(db, f)))
    case Merge(level, in0, in1, stream, outs, _) =>
      OutputsClear(db.version, level, in0, Of(Flatten(outs))) && MarkersClear(db, level, in0, in1, stream)
    case _ => true
  }

  ghost predicate Enabled(db: Db, step: Step) {
    Ready(db, step) && Harmless(db, step)
  }

  function MetaOf(number: nat, size: nat, run: Run): FileMeta
    requires run != []
  {
    FileMeta(number, size, run[0].key, run[|run| - 1].key)
  }

  ghost function FlushEdit(db: Db, size: nat, run: Run): FileEdit
    requires run != []
  {
    FileEdit({}, [(PickLevel(db.version, run[0].key.user, run[|run| - 1].key.user), MetaOf(db.nextFile, size, run))])
  }

  function MoveEdit(level: nat, f: FileMeta): FileEdit {
    FileEdit({(level, f.number)}, [(level + 1, f)])
  }

  function InputDeletions(level: nat, in0: FileList, in1: FileList): set<(nat, nat)> {
    (set f | f in in0 :: (level, f.number)) + (set f | f in in1 :: (level + 1, f.number))
  }

  function MergeEdit(db: Db, level: nat, in0: FileList, in1: FileList, outs: seq<Run>, sizes: seq<nat>): FileEdit
    requires |sizes| == |outs| && forall i :: 0 <= i < |outs| ==> outs[i] != []
  {
    FileEdit(InputDeletions(level, in0, in1),
             seq(|outs|, i requires 0 <= i < |outs| => (level + 1, MetaOf(db.nextFile + i, sizes[i], outs[i]))))
  }

  /** Output tables are written under consecutive numbers from `next` on. */
  function MergeTables(tables: map<nat, Run>, next: nat, outs: seq<Run>): (r: map<nat, Run>)
    ensures forall n :: n in tables && n < next ==> n in r && r[n] == tables[n]
    ensures forall m :: next <= m < next + |outs| ==> m in r && r[m] == outs[m - next]
    decreases |outs|
  {
    if outs == [] then tables
    else
      var n := |outs| - 1;
      MergeTables(tables, next, outs[..n])[next + n := outs[n]]
  }

  ghost function After(db: Db, step: Step): Db
    requires Ready(db, step)
  {
    match step
    case Write(ops) =>
      db.(mem := AddBatch(db.mem, ops, db.lastSequence + 1), lastSequence := db.lastSequence + |ops|)
    case SwitchMem =>
      db.(mem := [], imm := Some(db.mem), nextFile := db.nextFile + 1)
    case Flush(size) =>
      var run := db.imm.value;
      if run == [] then db.(imm := None, nextFile := db.nextFile + 1)
      else db.(imm := None, nextFile := db.nextFile + 1, tables := db.tables[db.nextFile := run],
               version := Install(db.version, FlushEdit(db, size, run)))
    case Move(level, f) =>
      db.(version := Install(db.version, MoveEdit(level, f)))
    case Merge(level, in0, in1, stream, outs, sizes) =>
      db.(nextFile := db.nextFile + |outs|, tables := MergeTables(db.tables, db.nextFile, outs),
          version := Install(db.version, MergeEdit(db, level, in0, in1, outs, sizes)))
    case TakeSnapshot => db.(snapshots := db.snapshots + [db.lastSequence])
    case ReleaseSnapshot(i) => db.(snapshots := db.snapshots[..i] + db.snapshots[i + 1..])
  }

  ghost function Written(db: Db, step: Step): iset<Entry> {
    match step
    case Write(ops) => NewEntries(ops, db.lastSequence + 1)
    case _ => iset{}
  }

  // ---------- steps that leave the files alone ----------

  ghost predicate SameFiles(db: Db, db': Db) {
    db'.version == db.version && db'.tables == db.tables && db'.nextFile >= db.nextFile
  }

  lemma SameFilesOk(db: Db, db': Db)
    requires FilesOk(db) && SameFiles(db, db')
    ensures FilesOk(db')
  {
    forall l, f | 0 <= l < NUM_LEVELS && f in db'.version[l] ensures FileOk(db', f) {
      assert FileOk(db, f);
    }
  }

  lemma SameFilesAt(db: Db, db': Db, p: Place, e: Entry)
    requires SameFiles(db, db') && (p.InL0? || p.InLevel?)
    ensures At(db', p, e) <==> At(db, p, e)
  {
    assert forall f :: InFile(db, f, e) == InFile(db', f, e);
  }

  /** Entries only appear at the memtable, with sequence numbers above everything stored. */
  ghost predicate GrowsMem(db: Db, db': Db, added: iset<Entry>) {
    forall p, e :: At(db', p, e) <==> At(db, p, e) || (p == InMem && e in added)
  }

  lemma GrowsMemAge(db: Db, db': Db, added: iset<Entry>)
    requires AgeOrdered(db) && UniquePlaces(db) && Bounded(db) && GrowsMem(db, db', added)
    requires forall e :: e in added ==> db.lastSequence < e.key.sequence <= db'.lastSequence
    requires db.lastSequence <= db'.lastSequence < MAX_SEQUENCE && UniqueSeqs(added)
    ensures AgeOrdered(db') && UniquePlaces(db') && Bounded(db')
  {
  }

  lemma SamePlacesSameEntries(db: Db, db': Db, added: iset<Entry>)
    requires GrowsMem(db, db', added)
    ensures All(db') == All(db) + added
  {
    forall e ensures e in All(db') <==> e in All(db) || e in added {
      if e in All(db') { var p :| At(db', p, e); }
      if e in All(db) { var p :| At(db, p, e); assert At(db', p, e); }
      if e in added { assert At(db', InMem, e); }
    }
  }

  lemma WriteKeeps(db: Db, ops: seq<Op>)
    requires Inv(db) && Enabled(db, Write(ops))
    ensures Inv(After(db, Write(ops)))
    ensures All(After(db, Write(ops))) == All(db) + NewEntries(ops, db.lastSequence + 1)
  {
    hide AddBatch, ValidPick;
    var db' := After(db, Write(ops));
    var added := NewEntries(ops, db.lastSequence + 1);
    forall o | o in db.mem ensures o.key.sequence <= db.lastSequence { assert At(db, InMem, o); }
    AddBatchOk(db.mem, ops, db.lastSequence + 1);
    SameFilesOk(db, db');
    forall p, e ensures At(db', p, e) <==> At(db, p, e) || (p == InMem && e in added) {
      if p.InL0? || p.InLevel? { SameFilesAt(db, db', p, e); }
    }
    GrowsMemAge(db, db', added);
    SamePlacesSameEntries(db, db', added);
  }

  /** A write keeps the invariant and stores the operations of the batch, and nothing else, under
      the next sequence numbers. */
  lemma WriteInv(db: Db, ops: seq<Op>)
    requires Inv(db) && Enabled(db, Write(ops))
    ensures Inv(After(db, Write(ops)))
    ensures All(After(db, Write(ops))) == All(db) + NewEntries(ops, db.lastSequence + 1)
    ensures forall e :: e in All(After(db, Write(ops))) <==>
      e in All(db) || exists i :: 0 <= i < |ops| && Records(e, ops[i], db.lastSequence + 1 + i)
  {
    hide *;
    WriteKeeps(db, ops);
    NewEntriesRecord(ops, db.lastSequence + 1);
  }

  ghost predicate SinksMem(db: Db, db': Db) {
    forall p, e :: At(db', p, e) <==> if p.InMem? then false else if p.InImm? then At(db, InMem, e) else At(db, p, e)
  }

  lemma SinksMemAge(db: Db, db': Db)
    requires AgeOrdered(db) && UniquePlaces(db) && Bounded(db) && SinksMem(db, db')
    requires db'.lastSequence == db.lastSequence
    ensures AgeOrdered(db') && UniquePlaces(db') && Bounded(db')
  {
    forall p, q, e, o | At(db', p, e) && At(db', q, o) && Newer(p, q) && e.key.user == o.key.user
      ensures e.key.sequence > o.key.sequence
    {
      assert At(db, if p.InImm? then InMem else p, e) && At(db, if q.InImm? then InMem else q, o);
    }
  }

  lemma SwitchInv(db: Db)
    requires Inv(db) && Enabled(db, SwitchMem)
    ensures Inv(After(db, SwitchMem)) && All(After(db, SwitchMem)) == All(db)
  {
    var db' := After(db, SwitchMem);
    SameFilesOk(db, db');
    forall p, e
      ensures At(db', p, e) <==> if p.InMem? then false else if p.InImm? then At(db, InMem, e) else At(db, p, e)
    {
      if p.InL0? || p.InLevel? { SameFilesAt(db, db', p, e); }
    }
    SinksMemAge(db, db');
    forall e ensures e in All(db') <==> e in All(db) {
      if e in All(db') { var p :| At(db', p, e); assert At(db, if p == InImm then InMem else p, e); }
      if e in All(db) { var p :| At(db, p, e); assert At(db', if p == InMem then InImm else p, e); }
    }
    assert All(db') == All(db);
  }

  /** The list stays in creation order, so its head bounds every live and every future snapshot. */
  lemma SnapshotListOk(db: Db, step: Step)
    requires SnapshotsOk(db) && Enabled(db, step) && (step.TakeSnapshot? || step.ReleaseSnapshot?)
    ensures SnapshotsOk(After(db, step))
    ensures SmallestSnapshot(After(db, step)) >= SmallestSnapshot(db)
  {
    if step.ReleaseSnapshot? {
      ReleaseOk(db.snapshots, step.i, db.lastSequence);
    } else {
      TakeOk(db.snapshots, db.lastSequence);
    }
  }

  lemma TakeOk(list: seq<nat>, last: nat)
    requires SnapshotList(list, last)
    ensures SnapshotList(list + [last], last) && (list + [last])[0] >= if list == [] then last else list[0]
  {
    assert forall j :: 0 <= j < |list| ==> list[j] in list;
  }

  lemma ReleaseOk(list: seq<nat>, i: nat, last: nat)
    requires SnapshotList(list, last) && i < |list|
    ensures SnapshotList(list[..i] + list[i + 1..], last)
    ensures var after := list[..i] + list[i + 1..]; after != [] ==> after[0] >= list[0]
    ensures list[0] <= last
  {
    var after := list[..i] + list[i + 1..];
    forall j | 0 <= j < |after| ensures after[j] == list[if j < i then j else j + 1] && after[j] in list {
    }
    assert list[0] in list;
  }

  lemma SnapshotInv(db: Db, step: Step)
    requires Inv(db) && Enabled(db, step) && (step.TakeSnapshot? || step.ReleaseSnapshot?)
    ensures Inv(After(db, step)) && All(After(db, step)) == All(db)
    ensures SmallestSnapshot(After(db, step)) >= SmallestSnapshot(db)
  {
    var db' := After(db, step);
    SameFilesOk(db, db');
    forall p, e ensures At(db', p, e) <==> At(db, p, e) {
      if p.InL0? || p.InLevel? { SameFilesAt(db, db', p, e); }
    }
    GrowsMemAge(db, db', iset{});
    SamePlacesSameEntries(db, db', iset{});
    assert All(db') == All(db);
    SnapshotListOk(db, step);
  }

  // ---------- installing an edit ----------

  /** `f` is in level `l` of the version that `edit` produces. */
  ghost predicate Listed(v: Version, edit: FileEdit, l: nat, f: FileMeta)
    requires l < NUM_LEVELS
  {
    (f in v[l] && (l, f.number) !in edit.deleted) || (l, f) in edit.added
  }

  ghost predicate Apart(f: FileMeta, g: FileMeta) {
    Less(f.largest, g.smallest) || Less(g.largest, f.smallest)
  }

  ghost predicate AddedSound(db': Db, edit: FileEdit) {
    forall l: nat, f :: (l, f) in edit.added ==>
      l < NUM_LEVELS && FileOk(db', f) && f.largest.sequence <= MAX_SEQUENCE && (l, f.number) !in edit.deleted
  }

  ghost predicate AddedNumbered(db: Db, edit: FileEdit) {
    (forall i, j :: 0 <= i < j < |edit.added| ==> edit.added[i].1.number != edit.added[j].1.number) &&
    (forall l: nat, f, m: nat, g :: (l, f) in edit.added && m < NUM_LEVELS && g in db.version[m] && f.number == g.number
      ==> l != m && (m, g.number) in edit.deleted)
  }

  ghost predicate AddedApart(v: Version, edit: FileEdit) {
    forall l: nat, f, g :: 1 <= l < NUM_LEVELS && (l, f) in edit.added && Listed(v, edit, l, g) && f != g
      ==> Apart(f, g)
  }

  /** An edit whose added files are sound, numbered apart from every listed file, and disjoint
      from their new neighbours above level 0. */
  ghost predicate SoundEdit(db: Db, db': Db, edit: FileEdit) {
    AddedSound(db', edit) && AddedNumbered(db, edit) && AddedApart(db.version, edit)
  }

  /** Table files keep their contents. */
  ghost predicate TablesKept(db: Db, db': Db) {
    db'.nextFile >= db.nextFile && forall n :: n in db.tables && n < db.nextFile ==>
      n in db'.tables && db'.tables[n] == db.tables[n]
  }

  lemma InstallMembers(v: Version, edit: FileEdit, l: nat)
    requires l < NUM_LEVELS && SortedFiles(v[l]) && FreshEdit(v[l], edit, l)
    ensures SortedFiles(Install(v, edit)[l])
    ensures forall f :: f in Install(v, edit)[l] <==> Listed(v, edit, l, f)
  {
    hide SortedFiles;
    SaveLevelMembers(v[l], edit, l);
  }

  lemma SoundEditFresh(db: Db, db': Db, edit: FileEdit, l: nat)
    requires SoundEdit(db, db', edit) && l < NUM_LEVELS
    ensures FreshEdit(db.version[l], edit, l)
  {
    forall i | 0 <= i < |edit.added| && edit.added[i].0 == l
      ensures (l, edit.added[i].1.number) !in edit.deleted
      ensures forall f :: f in db.version[l] ==> f.number != edit.added[i].1.number
    {
      assert (l, edit.added[i].1) in edit.added;
    }
  }

  lemma ApartMeansDisjoint(files: FileList)
    requires SortedFiles(files) && RangesOk(files)
    requires forall f, g :: f in files && g in files && f != g ==> Apart(f, g)
    ensures DisjointFiles(files)
  {
    forall i, j | 0 <= i < j < |files| ensures Less(files[i].largest, files[j].smallest) {
      assert files[i] in files && files[j] in files && FileBefore(files[i], files[j]);
    }
  }

  lemma DisjointMeansApart(files: FileList, f: FileMeta, g: FileMeta)
    requires DisjointFiles(files) && f in files && g in files && f != g
    ensures Apart(f, g)
  {
    var i :| 0 <= i < |files| && files[i] == f;
    var j :| 0 <= j < |files| && files[j] == g;
  }

  lemma FileRangeOk(db: Db, f: FileMeta)
    requires FileOk(db, f)
    ensures !Less(f.largest, f.smallest)
  {
    var run := Contents(db, f);
    assert |run| > 1 ==> Less(run[0].key, run[|run| - 1].key);
  }

  lemma KeptFileOk(db: Db, db': Db, f: FileMeta)
    requires FileOk(db, f) && TablesKept(db, db')
    ensures FileOk(db', f) && Contents(db', f) == Contents(db, f)
  {
  }

  lemma InstalledLevelOk(db: Db, db': Db, edit: FileEdit, l: nat)
    requires FilesOk(db) && TablesKept(db, db') && db'.version == Install(db.version, edit)
    requires SoundEdit(db, db', edit) && l < NUM_LEVELS
    ensures SortedFiles(db'.version[l]) && RangesOk(db'.version[l])
    ensures forall f :: f in db'.version[l] <==> Listed(db.version, edit, l, f)
    ensures forall f :: f in db'.version[l] ==> FileOk(db', f) && f.largest.sequence <= MAX_SEQUENCE
    ensures l > 0 ==> DisjointFiles(db'.version[l])
  {
    SoundEditFresh(db, db', edit, l);
    InstallMembers(db.version, edit, l);
    forall f | f in db'.version[l]
      ensures FileOk(db', f) && f.largest.sequence <= MAX_SEQUENCE && !Less(f.largest, f.smallest)
    {
      if f in db.version[l] { KeptFileOk(db, db', f); }
      FileRangeOk(db', f);
    }
    if l > 0 {
      forall f, g | f in db'.version[l] && g in db'.version[l] && f != g ensures Apart(f, g) {
        if (l, f) !in edit.added && (l, g) !in edit.added {
          DisjointMeansApart(db.version[l], f, g);
        } else if (l, f) in edit.added {
          assert Apart(f, g);
        } else {
          assert Apart(g, f);
        }
      }
      ApartMeansDisjoint(db'.version[l]);
    }
  }

  lemma InstallOk(db: Db, db': Db, edit: FileEdit)
    requires FilesOk(db) && TablesKept(db, db') && db'.version == Install(db.version, edit)
    requires SoundEdit(db, db', edit)
    ensures FilesOk(db')
    ensures forall l, f :: 0 <= l < NUM_LEVELS ==> (f in db'.version[l] <==> Listed(db.version, edit, l, f))
  {
    forall l | 0 <= l < NUM_LEVELS
      ensures SortedFiles(db'.version[l]) && RangesOk(db'.version[l])
      ensures forall f :: f in db'.version[l] <==> Listed(db.version, edit, l, f)
      ensures forall f :: f in db'.version[l] ==> FileOk(db', f) && f.largest.sequence <= MAX_SEQUENCE
      ensures l > 0 ==> DisjointFiles(db'.version[l])
    {
      InstalledLevelOk(db, db', edit, l);
    }
    forall l, f, m, g |
      0 <= l < NUM_LEVELS && f in db'.version[l] && 0 <= m < NUM_LEVELS && g in db'.version[m] && f.number == g.number
      ensures l == m && f == g
    {
      ListedNumbersUnique(db, db', edit, l, f, m, g);
    }
  }

  lemma ListedNumbersUnique(db: Db, db': Db, edit: FileEdit, l: nat, f: FileMeta, m: nat, g: FileMeta)
    requires NumbersUnique(db) && SoundEdit(db, db', edit) && l < NUM_LEVELS && m < NUM_LEVELS
    requires Listed(db.version, edit, l, f) && Listed(db.version, edit, m, g) && f.number == g.number
    ensures l == m && f == g
  {
    if (l, f) in edit.added && (m, g) in edit.added {
      var i :| 0 <= i < |edit.added| && edit.added[i] == (l, f);
      var j :| 0 <= j < |edit.added| && edit.added[j] == (m, g);
      assert i == j;
    }
  }

  // ---------- flush ----------

  ghost function FlushLevel(db: Db, run: Run): nat
    requires run != []
  {
    PickLevel(db.version, run[0].key.user, run[|run| - 1].key.user)
  }

  ghost function FlushPlace(db: Db, run: Run): Place
    requires run != []
  {
    if FlushLevel(db, run) == 0 then InL0(db.nextFile) else InLevel(FlushLevel(db, run))
  }

  lemma FlushSound(db: Db, db': Db, size: nat, run: Run)
    requires TablesOk(db) && run != [] && Sorted(run) && run[|run| - 1].key.sequence <= MAX_SEQUENCE
    requires db'.nextFile == db.nextFile + 1 && db'.tables == db.tables[db.nextFile := run]
    ensures TablesKept(db, db') && SoundEdit(db, db', FlushEdit(db, size, run))
  {
    hide Sorted, GrandparentBytes;
    var f := MetaOf(db.nextFile, size, run);
    var level := FlushLevel(db, run);
    assert FileOk(db', f);
    FileRangeOk(db', f);
    forall g | level > 0 && g in db.version[level] ensures Apart(f, g) {
      assert FileOk(db, g);
      FileRangeOk(db, g);
      assert !Overlaps(g, Some(run[0].key.user), Some(run[|run| - 1].key.user));
    }
    forall m: nat, g | m < NUM_LEVELS && g in db.version[m] ensures g.number != f.number {
      assert FileOk(db, g);
    }
  }

  lemma FlushAt(db: Db, db': Db, size: nat, run: Run, p: Place, e: Entry)
    requires TablesOk(db) && run != [] && db'.mem == db.mem && db'.imm.None?
    requires db'.tables == db.tables[db.nextFile := run]
    requires forall l, f :: 0 <= l < NUM_LEVELS ==>
      (f in db'.version[l] <==> Listed(db.version, FlushEdit(db, size, run), l, f))
    ensures At(db', p, e) <==> (p == FlushPlace(db, run) && e in run) || (p != InImm && At(db, p, e))
  {
    var added := MetaOf(db.nextFile, size, run);
    var level := FlushLevel(db, run);
    assert Contents(db', added) == run;
    if p.InL0? || (p.InLevel? && 1 <= p.level < NUM_LEVELS) {
      var l := if p.InL0? then 0 else p.level;
      forall f | f in db.version[l] ensures Contents(db', f) == Contents(db, f) && f.number < db.nextFile {
        assert FileOk(db, f);
      }
      assert FlushEdit(db, size, run).added == [(level, added)];
      assert forall f :: f in db'.version[l] <==> f in db.version[l] || (l == level && f == added);
      if At(db, p, e) {
        var f :| f in db.version[l] && InFile(db, f, e) && (p.InL0? ==> f.number == p.number);
        assert f in db'.version[l] && InFile(db', f, e);
      }
      if p == FlushPlace(db, run) && e in run {
        assert added in db'.version[l] && InFile(db', added, e);
      }
    }
  }

  /** A level that does not overlap the memtable shares no user key with it. */
  lemma NoSharedKeys(db: Db, run: Run, l: nat, f: FileMeta, e: Entry, o: Entry)
    requires Sorted(run) && run != [] && l < NUM_LEVELS && f in db.version[l] && FileOk(db, f)
    requires !OverlapInLevel(db.version, l, run[0].key.user, run[|run| - 1].key.user)
    requires InFile(db, f, e) && o in run
    ensures e.key.user != o.key.user
  {
    RunEntryBounds(Contents(db, f), e);
    RunEntryBounds(run, o);
    assert !Overlaps(f, Some(run[0].key.user), Some(run[|run| - 1].key.user));
  }

  lemma FlushedSharesNoKey(db: Db, run: Run, p: Place, e: Entry, o: Entry)
    requires TablesOk(db) && run != [] && Sorted(run) && o in run && At(db, p, e) && (p.InL0? || p.InLevel?)
    requires Newer(p, FlushPlace(db, run)) || p == FlushPlace(db, run)
    ensures e.key.user != o.key.user
  {
    var l := if p.InL0? then 0 else p.level;
    var f :| f in db.version[l] && InFile(db, f, e) && (p.InL0? ==> f.number == p.number);
    assert FileOk(db, f);
    NoSharedKeys(db, run, l, f, e, o);
  }

  /** The flushed entries are older than what stays above them and share no key with files they pass. */
  lemma FlushedIsOlder(db: Db, p: Place, e: Entry, o: Entry)
    requires TablesOk(db) && AgeOrdered(db) && db.imm.Some? && Sorted(db.imm.value) && o in db.imm.value
    requires At(db, p, e) && e.key.user == o.key.user && p != InImm
    requires Newer(p, FlushPlace(db, db.imm.value)) || p == FlushPlace(db, db.imm.value)
    ensures p == InMem && e.key.sequence > o.key.sequence
  {
    if p.InL0? || p.InLevel? {
      FlushedSharesNoKey(db, db.imm.value, p, e, o);
    } else {
      assert At(db, InImm, o);
    }
  }

  lemma FlushInv(db: Db, size: nat)
    requires Inv(db) && Enabled(db, Flush(size))
    ensures Inv(After(db, Flush(size))) && All(After(db, Flush(size))) == All(db)
    ensures After(db, Flush(size)).imm.None? && After(db, Flush(size)).nextFile == db.nextFile + 1
  {
    hide FlushEdit, FlushPlace, Harmless, Install, VersionOk;
    var run := db.imm.value;
    var db' := After(db, Flush(size));
    if run == [] {
      SameFilesOk(db, db');
      forall p, e ensures At(db', p, e) <==> p != InImm && At(db, p, e) {
        if p.InL0? || p.InLevel? { SameFilesAt(db, db', p, e); }
      }
      forall e ensures e in All(db') <==> e in All(db) {
        if e in All(db') { var p :| At(db', p, e); assert At(db, p, e); }
        if e in All(db) { var p :| At(db, p, e); assert At(db', p, e); }
      }
      assert All(db') == All(db);
    } else {
      assert At(db, InImm, run[|run| - 1]);
      FlushSound(db, db', size, run);
      InstallOk(db, db', FlushEdit(db, size, run));
      var np := FlushPlace(db, run);
      forall p, e ensures At(db', p, e) <==> (p == np && e in run) || (p != InImm && At(db, p, e)) {
        FlushAt(db, db', size, run, p, e);
      }
      FlushKeepsAge(db, db');
      forall e ensures e in All(db') <==> e in All(db) {
        if e in All(db') { var p :| At(db', p, e); assert At(db, InImm, e) || At(db, p, e); }
        if e in All(db) { var p :| At(db, p, e); assert At(db', np, e) || At(db', p, e); }
      }
      assert All(db') == All(db);
    }
  }

  lemma FlushKeepsAge(db: Db, db': Db)
    requires Inv(db) && db.imm.Some? && db.imm.value != [] && db'.lastSequence == db.lastSequence
    requires forall p, e :: At(db', p, e) <==>
      (p == FlushPlace(db, db.imm.value) && e in db.imm.value) || (p != InImm && At(db, p, e))
    ensures AgeOrdered(db') && UniquePlaces(db') && Bounded(db')
  {
    hide FlushPlace, SnapshotsOk, InFile;
    var run, np := db.imm.value, FlushPlace(db, db.imm.value);
    forall p, q, e, o | At(db', p, e) && At(db', q, o) && Newer(p, q) && e.key.user == o.key.user
      ensures e.key.sequence > o.key.sequence
    {
      if p == np && e in run {
        assert At(db, InImm, e);
        assert q != np && At(db, q, o);
      } else if q == np && o in run {
        FlushedIsOlder(db, p, e, o);
      }
    }
    forall p, e, o | At(db', p, e) && At(db', p, o) && e.key.user == o.key.user && e.key.sequence == o.key.sequence
      ensures e == o
    {
      if p == np && e in run && o in run {
        assert At(db, InImm, e) && At(db, InImm, o);
      } else if p == np && e in run {
        FlushedIsOlder(db, p, o, e);
      } else if p == np && o in run {
        FlushedIsOlder(db, p, e, o);
      }
    }
    forall p, e | At(db', p, e) ensures e.key.sequence <= db.lastSequence {
      assert At(db, InImm, e) || At(db, p, e);
    }
  }
}
