/** The manifest of a running store: every step's edit passes the version builder's checks, and
    replaying the edits of a run, from the bytes of the manifest file, gives back the version the
    run arrived at (db_impl.cc CompactMemTable, BackgroundCompaction, version_set.cc LogAndApply,
    Recover).
  */
module ManifestRuns {
  import opened Keys
  import opened Versions
  import opened CompactionWork
  import opened Lsm
  import opened LsmSteps
  import opened LsmCompactions
  import opened LsmRuns
  import opened Manifest

  // ---------- the edits of a run ----------

  const NO_FILES := FileEdit({}, [])

  /** The file part of the edit a step logs.  Flushing an empty memtable logs an edit without files. */
  ghost function StepEdit(db: Db, step: Step): Option<FileEdit>
    requires Ready(db, step)
  {
    match step
    case Flush(size) => Some(if db.imm.value == [] then NO_FILES else FlushEdit(db, size, db.imm.value))
    case Move(level, f) => Some(MoveEdit(level, f))
    case Merge(level, in0, in1, _, outs, sizes) => Some(MergeEdit(db, level, in0, in1, outs, sizes))
    case _ => None
  }

  ghost predicate LevelsOk(e: FileEdit) {
    (forall p :: p in e.deleted ==> p.0 < NUM_LEVELS) && forall i :: 0 <= i < |e.added| ==> e.added[i].0 < NUM_LEVELS
  }

  /** What LogAndApply may rely on: the edit is sound for the store and yields its next version. */
  ghost predicate Applies(db: Db, db': Db, e: FileEdit) {
    FilesOk(db) && TablesKept(db, db') && SoundEdit(db, db', e) && LevelsOk(e) &&
    db'.version == Install(db.version, e)
  }

  lemma InstallNothing(v: Version)
    ensures Install(v, NO_FILES) == v
  {
    forall l | 0 <= l < NUM_LEVELS ensures Install(v, NO_FILES)[l] == v[l] {
      assert DeletedAt(NO_FILES, l) == {} && EmptyBuilder()[l] == EMPTY_LEVEL_STATE;
      assert ApplyToLevel(EMPTY_LEVEL_STATE, NO_FILES, l) == EMPTY_LEVEL_STATE;
      DropNothing(v[l]);
    }
  }

  lemma FlushApplies(db: Db, size: nat)
    requires Inv(db) && db.imm.Some?
    ensures Applies(db, After(db, Flush(size)), StepEdit(db, Flush(size)).value)
  {
    var run, db' := db.imm.value, After(db, Flush(size));
    if run == [] {
      InstallNothing(db.version);
    } else {
      assert At(db, InImm, run[|run| - 1]);
      FlushSound(db, db', size, run);
    }
  }

  lemma MoveApplies(db: Db, level: nat, f: FileMeta)
    requires Inv(db) && Ready(db, Move(level, f))
    ensures Applies(db, After(db, Move(level, f)), MoveEdit(level, f))
  {
    assert f in [f];
    MoveSound(db, After(db, Move(level, f)), level, f);
  }

  lemma MergeApplies(db: Db, step: Step)
    requires Inv(db) && step.Merge? && Ready(db, step)
    ensures Applies(db, After(db, step), StepEdit(db, step).value)
  {
    var Merge(level, in0, in1, stream, outs, sizes) := step;
    MergeOutputsOk(db, step);
    MergeSound(db, After(db, step), level, in0, in1, outs, sizes);
  }

  lemma StepApplies(db: Db, step: Step)
    requires Inv(db) && Ready(db, step) && StepEdit(db, step).Some?
    ensures Applies(db, After(db, step), StepEdit(db, step).value)
  {
    match step
    case Flush(size) => FlushApplies(db, size);
    case Move(level, f) => MoveApplies(db, level, f);
    case Merge(_, _, _, _, _, _) => MergeApplies(db, step);
    case _ =>
  }

  /** The builder part of LogAndApply: its non-overlap check holds for every sound edit. */
  method LogAndApply(base: Version, edit: FileEdit, ghost db: Db, ghost db': Db) returns (v: Version)
    requires base == db.version && Applies(db, db', edit)
    ensures v == db'.version
  {
    InstallOk(db, db', edit);
    var builder := new VersionBuilder(base);
    builder.Apply(edit);
    assert forall l :: 0 <= l < NUM_LEVELS ==> SaveLevel(base[l], builder.levels[l]) == db'.version[l];
    v := builder.SaveTo();
  }

  /** The same for the edit of any step the code takes. */
  method LogAndApplyStep(base: Version, edit: FileEdit, ghost db: Db, ghost step: Step) returns (v: Version)
    requires Inv(db) && Ready(db, step) && base == db.version && StepEdit(db, step) == Some(edit)
    ensures v == After(db, step).version
  {
    StepApplies(db, step);
    v := LogAndApply(base, edit, db, After(db, step));
  }

  // ---------- files only sink ----------

  /** Every number the level has ever held is an old one, and its file is now there or deeper. */
  ghost predicate Sunk(db: Db, s: LevelState, l: nat) {
    (forall g :: g in s.added ==> g.number < db.nextFile) &&
    (forall g, m, f :: g in s.added && 0 <= m < NUM_LEVELS && f in db.version[m] && f.number == g.number ==> m >= l)
  }

  /** Added files are new ones, or come from the level above. */
  ghost predicate Sinks(db: Db, e: FileEdit) {
    forall m: nat, h :: (m, h) in e.added ==>
      h.number >= db.nextFile || exists k :: 0 <= k < NUM_LEVELS && k < m && h in db.version[k]
  }

  lemma StepSinks(db: Db, step: Step)
    requires Inv(db) && Ready(db, step) && StepEdit(db, step).Some?
    ensures Sinks(db, StepEdit(db, step).value)
  {
    match step
    case Move(level, f) => assert f in [f];
    case Merge(level, in0, in1, _, outs, sizes) => EditNumbers(db, level, in0, in1, outs, sizes);
    case _ =>
  }

  lemma NewNumbers(db: Db, s: LevelState, l: nat, e: FileEdit)
    requires Sunk(db, s, l) && Sinks(db, e) && l < NUM_LEVELS
    ensures forall g :: g in s.added ==> g.number !in Numbers(l, e.added)
    ensures Clean(s, l, e)
  {
    forall g, p | g in s.added && p in e.added && p.0 == l ensures p.1.number != g.number {
      assert (p.0, p.1) in e.added;
    }
  }

  lemma StaysSunk(db: Db, db': Db, s: LevelState, l: nat, e: FileEdit)
    requires Sunk(db, s, l) && Sinks(db, e) && l < NUM_LEVELS && SortedFiles(s.added)
    requires Applies(db, db', e)
    ensures Sunk(db', ApplyToLevel(s, e, l), l)
  {
    InstallOk(db, db', e);
    AddedMembers(LevelState(s.deleted + DeletedAt(e, l), s.added), l, e.added);
    forall g | g in ApplyToLevel(s, e, l).added
      ensures g.number < db'.nextFile
      ensures forall m, f :: 0 <= m < NUM_LEVELS && f in db'.version[m] && f.number == g.number ==> m >= l
    {
      if g in s.added {
        OldStaysSunk(db, db', s, l, e, g);
      } else {
        OwnAdded(l, e.added, g);
        assert FileOk(db', g);
        assert Listed(db.version, e, l, g);
      }
    }
  }

  lemma OldStaysSunk(db: Db, db': Db, s: LevelState, l: nat, e: FileEdit, g: FileMeta)
    requires Sunk(db, s, l) && Sinks(db, e) && l < NUM_LEVELS && g in s.added && db'.nextFile >= db.nextFile
    requires forall m, f :: 0 <= m < NUM_LEVELS ==> (f in db'.version[m] <==> Listed(db.version, e, m, f))
    ensures g.number < db'.nextFile
    ensures forall m, f :: 0 <= m < NUM_LEVELS && f in db'.version[m] && f.number == g.number ==> m >= l
  {
    forall m, f | 0 <= m < NUM_LEVELS && f in db'.version[m] && f.number == g.number ensures m >= l {
      assert Listed(db.version, e, m, f);
      if (m, f) in e.added {
        var k :| 0 <= k < NUM_LEVELS && k < m && f in db.version[k];
      }
    }
  }

  lemma {:induction false} OwnAdded(level: nat, added: seq<(nat, FileMeta)>, g: FileMeta)
    requires g in Own(level, added)
    ensures (level, g) in added
    decreases |added|
  {
    var rest, last := added[..|added| - 1], added[|added| - 1];
    assert added == rest + [last];
    if last.0 == level {
      InsertedOne(Own(level, rest), last.1, g);
    }
    if !(last == (level, g)) {
      OwnAdded(level, rest, g);
    }
  }

  lemma {:induction false} InsertedOne(fs: FileList, f: FileMeta, g: FileMeta)
    requires g in InsertFile(fs, f)
    ensures g in fs || g == f
  {
    if fs != [] && !FileBefore(f, fs[0]) && FileBefore(fs[0], f) && g != fs[0] {
      InsertedOne(fs[1..], f, g);
    }
  }

  // ---------- replaying a run ----------

  /** The edits logged by the steps from `i` up to `j`. */
  ghost function Edits(states: seq<System>, steps: seq<Step>, i: nat, j: nat): seq<FileEdit>
    requires IsRun(states, steps) && i <= j < |states|
    decreases j
  {
    if i == j then []
    else
      var edit := StepEdit(states[j - 1].db, steps[j - 1]);
      Edits(states, steps, i, j - 1) + if edit.Some? then [edit.value] else []
  }

  ghost predicate AllSunk(db: Db, b: BuilderState) {
    forall l :: 0 <= l < NUM_LEVELS ==> Sunk(db, b[l], l) && SortedFiles(b[l].added)
  }

  lemma SnapshotSunk(db: Db)
    requires FilesOk(db)
    ensures AllSunk(db, ApplyEdit(EmptyBuilder(), Snapshot(db.version)))
  {
    var b := ApplyEdit(EmptyBuilder(), Snapshot(db.version));
    forall l | 0 <= l < NUM_LEVELS ensures Sunk(db, b[l], l) && SortedFiles(b[l].added) {
      SnapshotLevel(db.version, l, NUM_LEVELS);
      assert EmptyBuilder()[l] == EMPTY_LEVEL_STATE && {} + DeletedAt(Snapshot(db.version), l) == {};
      assert b[l].added == db.version[l];
      forall g | g in db.version[l] ensures g.number < db.nextFile { assert FileOk(db, g); }
    }
  }

  /** A step without an edit leaves the files alone. */
  lemma QuietSunk(db: Db, step: Step, b: BuilderState)
    requires AllSunk(db, b) && Ready(db, step) && StepEdit(db, step).None?
    ensures AllSunk(After(db, step), b) && After(db, step).version == db.version
  {
  }

  lemma EditSunk(db: Db, step: Step, b: BuilderState)
    requires Inv(db) && AllSunk(db, b) && Ready(db, step) && StepEdit(db, step).Some?
    ensures CleanEdit(b, StepEdit(db, step).value)
    ensures AllSunk(After(db, step), ApplyEdit(b, StepEdit(db, step).value))
  {
    var e := StepEdit(db, step).value;
    StepSinks(db, step);
    StepApplies(db, step);
    forall l | 0 <= l < NUM_LEVELS
      ensures Clean(b[l], l, e)
      ensures Sunk(After(db, step), ApplyEdit(b, e)[l], l) && SortedFiles(ApplyEdit(b, e)[l].added)
    {
      NewNumbers(db, b[l], l, e);
      StaysSunk(db, After(db, step), b[l], l, e);
      AddedMembers(LevelState(b[l].deleted + DeletedAt(e, l), b[l].added), l, e.added);
    }
  }

  /** The manifest that starts with a snapshot record of `v` and goes on with `edits` is that of the store. */
  ghost predicate Tracks(db: Db, v: Version, edits: seq<FileEdit>) {
    CleanHistory(v, edits) && Installed(v, edits) == db.version && AllSunk(db, Replay(v, edits))
  }

  lemma TracksEdit(db: Db, step: Step, v: Version, edits: seq<FileEdit>)
    requires Inv(db) && Ready(db, step) && StepEdit(db, step).Some? && Tracks(db, v, edits)
    ensures Tracks(After(db, step), v, edits + [StepEdit(db, step).value])
  {
    var edits' := edits + [StepEdit(db, step).value];
    EditSunk(db, step, Replay(v, edits));
    StepApplies(db, step);
    assert edits'[..|edits'| - 1] == edits;
    CleanSnoc(v, edits, edits');
  }

  lemma TracksStep(db: Db, step: Step, v: Version, edits: seq<FileEdit>)
    requires Inv(db) && Ready(db, step) && Tracks(db, v, edits)
    ensures Tracks(After(db, step), v, edits + if StepEdit(db, step).Some? then [StepEdit(db, step).value] else [])
  {
    if StepEdit(db, step).Some? {
      TracksEdit(db, step, v, edits);
    } else {
      QuietSunk(db, step, Replay(v, edits));
      assert edits + [] == edits;
    }
  }

  lemma TracksNothing(db: Db)
    requires Inv(db)
    ensures Tracks(db, db.version, [])
  {
    SnapshotSunk(db);
  }

  /** In any run, and from a manifest started at any moment of it, the edits are clean and installing
      them gives the run's version. */
  lemma {:induction false} RunEdits(states: seq<System>, steps: seq<Step>, i: nat, j: nat)
    requires IsRun(states, steps) && i <= j < |states|
    ensures Tracks(states[j].db, states[i].db.version, Edits(states, steps, i, j))
    decreases j
  {
    hide Tracks, AllSunk, Inv, Ready, After, StepEdit;
    if i == j {
      RunInvariant(states, steps, i);
      TracksNothing(states[i].db);
    } else {
      RunEdits(states, steps, i, j - 1);
      RunInvariant(states, steps, j - 1);
      TracksStep(states[j - 1].db, steps[j - 1], states[i].db.version, Edits(states, steps, i, j - 1));
    }
  }

  /** Recovery of a real store: the snapshot record of any version of a run and the edits the run
      logged after it recover the very version the run arrived at. */
  lemma RunRecovers(states: seq<System>, steps: seq<Step>, i: nat, j: nat)
    requires IsRun(states, steps) && i <= j < |states|
    ensures Recovered(states[i].db.version, Edits(states, steps, i, j)) == states[j].db.version
  {
    RunEdits(states, steps, i, j);
    RunInvariant(states, steps, i);
    RecoverEqualsInstall(states[i].db.version, Edits(states, steps, i, j));
  }
}
