/** The manifest (version_set.cc LogAndApply, Recover, WriteSnapshot, Builder): replaying the snapshot
    record and all later edits through one builder, against installing the edits one by one.
  */
module Manifest {
  import opened Keys
  import opened Versions

  // ---------- adding files to an ordered set ----------

  ghost predicate Same(f: FileMeta, g: FileMeta) {
    f.smallest == g.smallest && f.number == g.number
  }

  lemma FileOrderTotal(f: FileMeta, g: FileMeta)
    ensures FileBefore(f, g) || FileBefore(g, f) <==> !Same(f, g)
    ensures !(FileBefore(f, g) && FileBefore(g, f))
  {
  }

  lemma {:induction false} InsertSorted(fs: FileList, f: FileMeta)
    requires SortedFiles(fs)
    ensures SortedFiles(InsertFile(fs, f))
    ensures forall g :: g in InsertFile(fs, f) <==> g in fs || (g == f && forall h :: h in fs ==> !Same(h, f))
  {
    if fs == [] {
    } else {
      SortedHead(fs);
      FileOrderTotal(f, fs[0]);
      assert forall h :: h in fs <==> h == fs[0] || h in fs[1..];
      if FileBefore(f, fs[0]) {
        forall g | g in fs ensures FileBefore(f, g) && !Same(g, f) { FileOrderTotal(f, g); }
        SortedCons(f, fs);
      } else if FileBefore(fs[0], f) {
        InsertSorted(fs[1..], f);
        var r := InsertFile(fs[1..], f);
        SortedCons(fs[0], r);
        assert InsertFile(fs, f) == [fs[0]] + r;
        assert !Same(fs[0], f);
        forall g ensures g in [fs[0]] + r <==> g in fs || (g == f && forall h :: h in fs ==> !Same(h, f)) {
          assert g in [fs[0]] + r <==> g == fs[0] || g in r;
        }
      } else {
        assert fs[0] in fs && Same(fs[0], f);
      }
    }
  }

  /** The files an edit adds to a level. */
  function Numbers(level: nat, added: seq<(nat, FileMeta)>): set<nat> {
    set p | p in added && p.0 == level :: p.1.number
  }

  /** The ordered set the edit's own files form. */
  function Own(level: nat, added: seq<(nat, FileMeta)>): FileList {
    AddFiles(EMPTY_LEVEL_STATE, level, added).added
  }

  lemma {:induction false} AddedNumbers(s: LevelState, level: nat, added: seq<(nat, FileMeta)>)
    ensures AddFiles(s, level, added).deleted == s.deleted - Numbers(level, added)
    decreases |added|
  {
    if added == [] {
    } else {
      var rest, last := added[..|added| - 1], added[|added| - 1];
      AddedNumbers(s, level, rest);
      assert added == rest + [last];
      assert Numbers(level, added) == Numbers(level, rest) + if last.0 == level then {last.1.number} else {};
    }
  }

  /** Adding an edit's files to a set adds those that have no equivalent there. */
  lemma {:induction false} AddedMembers(s: LevelState, level: nat, added: seq<(nat, FileMeta)>)
    requires SortedFiles(s.added)
    ensures SortedFiles(AddFiles(s, level, added).added) && SortedFiles(Own(level, added))
    ensures forall x :: x in AddFiles(s, level, added).added <==>
      x in s.added || (x in Own(level, added) && forall g :: g in s.added ==> !Same(g, x))
    ensures forall x :: x in Own(level, added) ==> x.number in Numbers(level, added)
    decreases |added|
  {
    if added == [] {
    } else {
      var rest, last := added[..|added| - 1], added[|added| - 1];
      AddedMembers(s, level, rest);
      assert added == rest + [last];
      if last.0 == level {
        var a, o := AddFiles(s, level, rest).added, Own(level, rest);
        InsertSorted(a, last.1);
        InsertSorted(o, last.1);
      }
    }
  }

  // ---------- one level, one edit ----------

  /** The level as the one recovery builder sees it: everything ever added, and what is deleted. */
  ghost predicate LevelAgrees(s: LevelState, files: FileList) {
    SortedFiles(s.added) && files == DropDeleted(s.added, s.deleted)
  }

  /** A number that the level has had before may be added again only as the very file it was, if that
      is deleted now, and not at all under the same smallest key, if it is not. */
  ghost predicate Clean(s: LevelState, level: nat, e: FileEdit) {
    forall g :: g in s.added && g.number in Numbers(level, e.added) ==>
      if g.number in s.deleted then g in Own(level, e.added)
      else forall f :: f in Own(level, e.added) ==> !Same(f, g)
  }

  /** What installing the edit on top of `files` gives at a level. */
  function InstallLevel(files: FileList, level: nat, e: FileEdit): FileList {
    SaveLevel(files, ApplyToLevel(EMPTY_LEVEL_STATE, e, level))
  }

  lemma SortedUnique(a: FileList, b: FileList)
    requires SortedFiles(a) && SortedFiles(b) && forall f :: f in a <==> f in b
    ensures a == b
  {
    assert b != [] ==> b[0] in b;
    if a != [] {
      assert a[0] in b && b[0] in a;
      var i :| 0 <= i < |b| && b[i] == a[0];
      var j :| 0 <= j < |a| && a[j] == b[0];
      FileOrderTotal(a[0], b[0]);
      SortedHead(a);
      SortedHead(b);
      forall f ensures f in a[1..] <==> f in b[1..] {
        FileOrderTotal(a[0], a[0]);
        assert f in a <==> f == a[0] || f in a[1..];
        assert f in b <==> f == b[0] || f in b[1..];
      }
      SortedUnique(a[1..], b[1..]);
    }
  }

  lemma {:induction false} MergeApart(base: FileList, added: FileList)
    requires SortedFiles(base) && SortedFiles(added)
    requires forall f, g :: f in base && g in added ==> !Same(f, g)
    ensures SortedFiles(MergeFiles(base, added))
    decreases |base| + |added|
  {
    if base != [] { SortedHead(base); }
    if added != [] {
      SortedHead(added);
      if base != [] && !FileBefore(added[0], base[0]) {
        FileOrderTotal(base[0], added[0]);
        assert base[0] in base && added[0] in added;
        MergeApart(base[1..], added);
        MergeFilesMembers(base[1..], added);
        forall g | g in added ensures FileBefore(base[0], g) { FileOrderTotal(base[0], g); }
        SortedCons(base[0], MergeFiles(base[1..], added));
      } else {
        MergeApart(base, added[1..]);
        MergeFilesMembers(base, added[1..]);
        SortedCons(added[0], MergeFiles(base, added[1..]));
      }
    }
  }

  /** The same list element can be in both inputs of a merge only at the price of order. */
  lemma {:induction false} MergeRepeats(base: FileList, added: FileList, deleted: set<nat>, f: FileMeta, g: FileMeta)
    requires f in base && g in added && Same(f, g) && f.number !in deleted
    ensures !SortedFiles(DropDeleted(MergeFiles(base, added), deleted))
    decreases |base| + |added|
  {
    assert base == [base[0]] + base[1..] && added == [added[0]] + added[1..];
    if !FileBefore(added[0], base[0]) {
      if f in base[1..] {
        MergeRepeats(base[1..], added, deleted, f, g);
        TailSorted(base[0], MergeFiles(base[1..], added), deleted);
      } else {
        MergeFilesMembers(base[1..], added);
        HeadRepeated(base[0], MergeFiles(base[1..], added), deleted, g);
      }
    } else {
      if g in added[1..] {
        MergeRepeats(base, added[1..], deleted, f, g);
        TailSorted(added[0], MergeFiles(base, added[1..]), deleted);
      } else {
        MergeFilesMembers(base, added[1..]);
        HeadRepeated(added[0], MergeFiles(base, added[1..]), deleted, f);
      }
    }
  }

  lemma DropCons(head: FileMeta, rest: FileList, deleted: set<nat>)
    ensures DropDeleted([head] + rest, deleted)
      == (if head.number in deleted then [] else [head]) + DropDeleted(rest, deleted)
  {
    assert ([head] + rest)[1..] == rest;
  }

  lemma TailSorted(head: FileMeta, rest: FileList, deleted: set<nat>)
    requires !SortedFiles(DropDeleted(rest, deleted))
    ensures !SortedFiles(DropDeleted([head] + rest, deleted))
  {
    DropCons(head, rest, deleted);
    SuffixUnsorted(if head.number in deleted then [] else [head], DropDeleted(rest, deleted));
  }

  lemma SuffixUnsorted(prefix: FileList, part: FileList)
    requires !SortedFiles(part)
    ensures !SortedFiles(prefix + part)
  {
    var i, j :| 0 <= i < j < |part| && !FileBefore(part[i], part[j]);
    var all, n := prefix + part, |prefix|;
    assert all[n + i] == part[i] && all[n + j] == part[j];
  }

  lemma HeadRepeated(head: FileMeta, rest: FileList, deleted: set<nat>, f: FileMeta)
    requires f in rest && Same(head, f) && f.number !in deleted
    ensures !SortedFiles(DropDeleted([head] + rest, deleted))
  {
    DropCons(head, rest, deleted);
    var part := DropDeleted(rest, deleted);
    assert f in part;
    var j :| 0 <= j < |part| && part[j] == f;
    var all := [head] + part;
    assert all[0] == head && all[j + 1] == f;
    FileOrderTotal(head, f);
  }

  /** Both ways of applying an edit to a level. */
  lemma StepMembers(s: LevelState, files: FileList, level: nat, e: FileEdit)
    requires LevelAgrees(s, files)
    ensures var t := ApplyToLevel(s, e, level); SortedFiles(t.added)
    ensures SortedFiles(files) && SortedFiles(Own(level, e.added))
    ensures forall x :: x in DropDeleted(ApplyToLevel(s, e, level).added, ApplyToLevel(s, e, level).deleted) <==>
      (x in s.added || (x in Own(level, e.added) && forall g :: g in s.added ==> !Same(g, x))) &&
      (x.number in Numbers(level, e.added) || (x.number !in s.deleted && (level, x.number) !in e.deleted))
    ensures InstallLevel(files, level, e) ==
      DropDeleted(MergeFiles(files, Own(level, e.added)), DeletedAt(e, level) - Numbers(level, e.added))
    ensures forall x :: x in InstallLevel(files, level, e) <==>
      (x in files || x in Own(level, e.added)) &&
      (x.number in Numbers(level, e.added) || (level, x.number) !in e.deleted)
  {
    var s' := LevelState(s.deleted + DeletedAt(e, level), s.added);
    AddedMembers(s', level, e.added);
    AddedNumbers(s', level, e.added);
    DropDeletedSorted(s.added, s.deleted);
    var own := LevelState(EMPTY_LEVEL_STATE.deleted + DeletedAt(e, level), []);
    AddedMembers(own, level, e.added);
    AddedNumbers(own, level, e.added);
    OwnIsOwn(own, level, e.added);
    assert own.deleted == DeletedAt(e, level);
    MergeFilesMembers(files, Own(level, e.added));
    assert forall n :: n in DeletedAt(e, level) <==> (level, n) in e.deleted;
  }

  lemma {:induction false} OwnIsOwn(s: LevelState, level: nat, added: seq<(nat, FileMeta)>)
    requires s.added == []
    ensures AddFiles(s, level, added).added == Own(level, added)
    decreases |added|
  {
    if added == [] {
    } else {
      OwnIsOwn(s, level, added[..|added| - 1]);
    }
  }

  /** Applying an edit to the one builder keeps it in step with the installed level exactly when the
      edit is clean. */
  lemma StepAgreesIffClean(s: LevelState, files: FileList, level: nat, e: FileEdit)
    requires LevelAgrees(s, files)
    ensures LevelAgrees(ApplyToLevel(s, e, level), InstallLevel(files, level, e)) <==> Clean(s, level, e)
  {
    StepMembers(s, files, level, e);
    if Clean(s, level, e) {
      CleanAgrees(s, files, level, e);
    }
    if LevelAgrees(ApplyToLevel(s, e, level), InstallLevel(files, level, e)) {
      AgreesClean(s, files, level, e);
    }
  }

  lemma CleanAgrees(s: LevelState, files: FileList, level: nat, e: FileEdit)
    requires LevelAgrees(s, files) && Clean(s, level, e)
    ensures LevelAgrees(ApplyToLevel(s, e, level), InstallLevel(files, level, e))
  {
    StepMembers(s, files, level, e);
    var t, own, nums := ApplyToLevel(s, e, level), Own(level, e.added), Numbers(level, e.added);
    AddedMembers(s, level, e.added);
    forall f, g | f in files && g in own ensures !Same(f, g) {
      assert f in s.added && f.number !in s.deleted;
    }
    MergeApart(files, own);
    DropDeletedSorted(MergeFiles(files, own), DeletedAt(e, level) - nums);
    DropDeletedSorted(t.added, t.deleted);
    var a, b := DropDeleted(t.added, t.deleted), InstallLevel(files, level, e);
    forall x ensures x in a <==> x in b {
      if x in own && exists g :: g in s.added && Same(g, x) {
        var g :| g in s.added && Same(g, x);
        assert g.number in nums;
        if g.number in s.deleted {
          assert g in own;
          SameInSorted(own, g, x);
        }
      }
    }
    SortedUnique(a, b);
  }

  lemma SameInSorted(fs: FileList, f: FileMeta, g: FileMeta)
    requires SortedFiles(fs) && f in fs && g in fs && Same(f, g)
    ensures f == g
  {
    var i :| 0 <= i < |fs| && fs[i] == f;
    var j :| 0 <= j < |fs| && fs[j] == g;
    FileOrderTotal(f, g);
  }

  lemma AgreesClean(s: LevelState, files: FileList, level: nat, e: FileEdit)
    requires LevelAgrees(s, files) && LevelAgrees(ApplyToLevel(s, e, level), InstallLevel(files, level, e))
    ensures Clean(s, level, e)
  {
    StepMembers(s, files, level, e);
    var t, own, nums := ApplyToLevel(s, e, level), Own(level, e.added), Numbers(level, e.added);
    forall g | g in s.added && g.number in nums
      ensures if g.number in s.deleted then g in own else forall f :: f in own ==> !Same(f, g)
    {
      assert g in InstallLevel(files, level, e);
      if g.number !in s.deleted {
        forall f | f in own ensures !Same(f, g) {
          if Same(f, g) {
            assert g in files;
            MergeRepeats(files, own, DeletedAt(e, level) - nums, g, f);
            DropDeletedSorted(t.added, t.deleted);
          }
        }
      }
    }
  }

  /** An example of an edit that is not clean: a new file under the number of a deleted one.  The one
      builder brings the deleted file back; installing the edit does not. */
  lemma ReusedNumberResurrects(s: LevelState, files: FileList, level: nat, g: FileMeta, f: FileMeta, e: FileEdit)
    requires LevelAgrees(s, files) && g in s.added && g.number in s.deleted && f.number == g.number && f != g
    requires e.deleted == {} && |e.added| == 1 && e.added[0] == (level, f)
    ensures !Clean(s, level, e) && g !in InstallLevel(files, level, e)
    ensures var t := ApplyToLevel(s, e, level); g in DropDeleted(t.added, t.deleted)
  {
    StepMembers(s, files, level, e);
    assert (level, f) in e.added;
    OwnOne(level, f, e.added);
  }

  lemma OwnOne(level: nat, f: FileMeta, added: seq<(nat, FileMeta)>)
    requires |added| == 1 && added[0] == (level, f)
    ensures Own(level, added) == [f]
  {
    var rest := added[..|added| - 1];
    assert AddFiles(EMPTY_LEVEL_STATE, level, rest) == EMPTY_LEVEL_STATE;
  }

  // ---------- whole versions ----------

  ghost predicate Agrees(b: BuilderState, v: Version) {
    forall l :: 0 <= l < NUM_LEVELS ==> LevelAgrees(b[l], v[l])
  }

  ghost predicate CleanEdit(b: BuilderState, e: FileEdit) {
    forall l :: 0 <= l < NUM_LEVELS ==> Clean(b[l], l, e)
  }

  lemma EditAgreesIffClean(b: BuilderState, v: Version, e: FileEdit)
    requires Agrees(b, v)
    ensures Agrees(ApplyEdit(b, e), Install(v, e)) <==> CleanEdit(b, e)
  {
    forall l | 0 <= l < NUM_LEVELS
      ensures LevelAgrees(ApplyEdit(b, e)[l], Install(v, e)[l]) <==> Clean(b[l], l, e)
    {
      StepAgreesIffClean(b[l], v[l], l, e);
      assert EmptyBuilder()[l] == EMPTY_LEVEL_STATE;
    }
  }

  // ---------- the snapshot record ----------

  /** WriteSnapshot: every file of the current version, level by level. */
  function SnapshotFiles(v: Version, l: nat): seq<(nat, FileMeta)>
    requires l <= NUM_LEVELS
  {
    if l == 0 then []
    else SnapshotFiles(v, l - 1) + Tagged(l - 1, v[l - 1])
  }

  function Tagged(l: nat, fs: FileList): seq<(nat, FileMeta)> {
    seq(|fs|, i requires 0 <= i < |fs| => (l, fs[i]))
  }

  function Snapshot(v: Version): FileEdit {
    FileEdit({}, SnapshotFiles(v, NUM_LEVELS))
  }

  ghost predicate SortedVersion(v: Version) {
    forall l :: 0 <= l < NUM_LEVELS ==> SortedFiles(v[l])
  }

  lemma {:induction false} AddFilesConcat(s: LevelState, level: nat, a: seq<(nat, FileMeta)>, b: seq<(nat, FileMeta)>)
    ensures AddFiles(s, level, a + b) == AddFiles(AddFiles(s, level, a), level, b)
    decreases |b|
  {
    if b == [] {
      assert a + b == a;
    } else {
      assert (a + b)[..|a + b| - 1] == a + b[..|b| - 1];
      AddFilesConcat(s, level, a, b[..|b| - 1]);
    }
  }

  lemma {:induction false} AddNone(s: LevelState, level: nat, a: seq<(nat, FileMeta)>)
    requires forall p :: p in a ==> p.0 != level
    ensures AddFiles(s, level, a) == s
    decreases |a|
  {
    if a == [] {
    } else {
      AddNone(s, level, a[..|a| - 1]);
      assert a[|a| - 1] in a;
    }
  }

  lemma {:induction false} InsertAtEnd(fs: FileList, f: FileMeta)
    requires forall g :: g in fs ==> FileBefore(g, f)
    ensures InsertFile(fs, f) == fs + [f]
  {
    if fs == [] {
    } else {
      FileOrderTotal(fs[0], f);
      assert fs == [fs[0]] + fs[1..];
      InsertAtEnd(fs[1..], f);
    }
  }

  lemma {:induction false} AddSorted(level: nat, fs: FileList)
    requires SortedFiles(fs)
    ensures AddFiles(EMPTY_LEVEL_STATE, level, Tagged(level, fs)) == LevelState({}, fs)
    decreases |fs|
  {
    var a := Tagged(level, fs);
    if fs != [] {
      var init := fs[..|fs| - 1];
      AddSorted(level, init);
      assert a[..|a| - 1] == Tagged(level, init);
      InsertAtEnd(init, fs[|fs| - 1]);
      assert init + [fs[|fs| - 1]] == fs;
    }
  }

  /** Before level `l` is listed the snapshot adds nothing to it, and afterwards nothing more. */
  lemma {:induction false} SnapshotLevel(v: Version, l: nat, n: nat)
    requires l < NUM_LEVELS && n <= NUM_LEVELS && SortedVersion(v)
    ensures AddFiles(EMPTY_LEVEL_STATE, l, SnapshotFiles(v, n))
      == if n <= l then EMPTY_LEVEL_STATE else LevelState({}, v[l])
    decreases n
  {
    if n == 0 {
    } else {
      SnapshotLevel(v, l, n - 1);
      var m: nat := n - 1;
      AddFilesConcat(EMPTY_LEVEL_STATE, l, SnapshotFiles(v, m), Tagged(m, v[m]));
      if m == l {
        AddSorted(l, v[l]);
      } else {
        AddNone(if m <= l then EMPTY_LEVEL_STATE else LevelState({}, v[l]), l, Tagged(m, v[m]));
      }
    }
  }

  lemma DropNothing(fs: FileList)
    ensures DropDeleted(fs, {}) == fs
  {
  }

  /** The builder that has read the snapshot record stands for the version it was taken of. */
  lemma SnapshotAgrees(v: Version)
    requires SortedVersion(v)
    ensures Agrees(ApplyEdit(EmptyBuilder(), Snapshot(v)), v)
  {
    var b := ApplyEdit(EmptyBuilder(), Snapshot(v));
    forall l | 0 <= l < NUM_LEVELS ensures LevelAgrees(b[l], v[l]) {
      SnapshotLevel(v, l, NUM_LEVELS);
      assert EmptyBuilder()[l] == EMPTY_LEVEL_STATE;
      assert {} + DeletedAt(Snapshot(v), l) == {};
      DropNothing(v[l]);
    }
  }

  // ---------- replaying a manifest ----------

  function EmptyVersion(): seq<FileList> {
    [[], [], [], [], [], [], []]
  }

  /** The builder after the snapshot record of `v` and the edits after it. */
  function Replay(v: Version, edits: seq<FileEdit>): BuilderState {
    if edits == [] then ApplyEdit(EmptyBuilder(), Snapshot(v))
    else ApplyEdit(Replay(v, edits[..|edits| - 1]), edits[|edits| - 1])
  }

  /** Recover: the version the builder saves on top of the empty one. */
  function Recovered(v: Version, edits: seq<FileEdit>): Version {
    SaveVersion(EmptyVersion(), Replay(v, edits))
  }

  /** LogAndApply, once per edit. */
  function Installed(v: Version, edits: seq<FileEdit>): Version {
    if edits == [] then v else Install(Installed(v, edits[..|edits| - 1]), edits[|edits| - 1])
  }

  ghost predicate CleanHistory(v: Version, edits: seq<FileEdit>) {
    forall i :: 0 <= i < |edits| ==> CleanEdit(Replay(v, edits[..i]), edits[i])
  }

  lemma SavedIsVisible(b: BuilderState, l: nat)
    requires l < NUM_LEVELS
    ensures SaveVersion(EmptyVersion(), b)[l] == DropDeleted(b[l].added, b[l].deleted)
  {
    assert EmptyVersion()[l] == [];
    MergeOntoNothing(b[l].added);
  }

  lemma {:induction false} MergeOntoNothing(added: FileList)
    ensures MergeFiles([], added) == added
  {
    if added == [] {
    } else {
      MergeOntoNothing(added[1..]);
    }
  }

  lemma {:induction false} ReplayAgrees(v: Version, edits: seq<FileEdit>)
    requires SortedVersion(v) && CleanHistory(v, edits)
    ensures Agrees(Replay(v, edits), Installed(v, edits))
    decreases |edits|
  {
    if edits == [] {
      SnapshotAgrees(v);
    } else {
      var init := edits[..|edits| - 1];
      assert forall i :: 0 <= i < |init| ==> init[..i] == edits[..i];
      ReplayAgrees(v, init);
      EditAgreesIffClean(Replay(v, init), Installed(v, init), edits[|edits| - 1]);
    }
  }

  /** Recovery from a snapshot record and any clean sequence of later edits yields, level by level and
      in order, the very file lists that installing the edits one by one produced. */
  lemma RecoverEqualsInstall(v: Version, edits: seq<FileEdit>)
    requires SortedVersion(v) && CleanHistory(v, edits)
    ensures Recovered(v, edits) == Installed(v, edits)
  {
    ReplayAgrees(v, edits);
    forall l | 0 <= l < NUM_LEVELS ensures Recovered(v, edits)[l] == Installed(v, edits)[l] {
      SavedIsVisible(Replay(v, edits), l);
    }
  }

  lemma {:induction false} ReplaySorted(v: Version, edits: seq<FileEdit>, l: nat)
    requires SortedVersion(v) && l < NUM_LEVELS
    ensures SortedFiles(Replay(v, edits)[l].added)
    decreases |edits|
  {
    if edits == [] {
      SnapshotAgrees(v);
    } else {
      var init, e := edits[..|edits| - 1], edits[|edits| - 1];
      ReplaySorted(v, init, l);
      var s := Replay(v, init)[l];
      AddedMembers(LevelState(s.deleted + DeletedAt(e, l), s.added), l, e.added);
    }
  }

  ghost predicate EverAgrees(v: Version, edits: seq<FileEdit>) {
    forall i :: 0 <= i <= |edits| ==> Recovered(v, edits[..i]) == Installed(v, edits[..i])
  }

  lemma {:induction false} AgreementNeedsClean(v: Version, edits: seq<FileEdit>)
    requires SortedVersion(v) && EverAgrees(v, edits)
    ensures CleanHistory(v, edits)
    decreases |edits|
  {
    if edits == [] {
    } else {
      var init := edits[..|edits| - 1];
      EverAgreesPrefix(v, init, edits);
      AgreementNeedsClean(v, init);
      ReplayAgrees(v, init);
      LastEditClean(v, init, edits);
      CleanSnoc(v, init, edits);
    }
  }

  lemma EverAgreesPrefix(v: Version, init: seq<FileEdit>, edits: seq<FileEdit>)
    requires edits != [] && init == edits[..|edits| - 1] && EverAgrees(v, edits)
    ensures EverAgrees(v, init) && Recovered(v, edits) == Installed(v, edits)
  {
    assert edits[..|edits|] == edits;
    forall i | 0 <= i <= |init| ensures Recovered(v, init[..i]) == Installed(v, init[..i]) {
      assert init[..i] == edits[..i];
    }
  }

  lemma CleanSnoc(v: Version, init: seq<FileEdit>, edits: seq<FileEdit>)
    requires edits != [] && init == edits[..|edits| - 1] && CleanHistory(v, init)
    requires CleanEdit(Replay(v, init), edits[|edits| - 1])
    ensures CleanHistory(v, edits)
  {
    forall i | 0 <= i < |edits| ensures CleanEdit(Replay(v, edits[..i]), edits[i]) {
      if i < |init| { assert init[..i] == edits[..i]; }
    }
  }

  lemma LastEditClean(v: Version, init: seq<FileEdit>, edits: seq<FileEdit>)
    requires edits != [] && init == edits[..|edits| - 1] && SortedVersion(v)
    requires Agrees(Replay(v, init), Installed(v, init)) && Recovered(v, edits) == Installed(v, edits)
    ensures CleanEdit(Replay(v, init), edits[|edits| - 1])
  {
    forall l | 0 <= l < NUM_LEVELS ensures LevelAgrees(Replay(v, edits)[l], Installed(v, edits)[l]) {
      SavedIsVisible(Replay(v, edits), l);
      ReplaySorted(v, edits, l);
    }
    EditAgreesIffClean(Replay(v, init), Installed(v, init), edits[|edits| - 1]);
  }

  /** Recovery agrees with installation after every edit of a history exactly when the history is clean. */
  lemma RecoveryExactlyWhenClean(v: Version, edits: seq<FileEdit>)
    requires SortedVersion(v)
    ensures EverAgrees(v, edits) <==> CleanHistory(v, edits)
  {
    if CleanHistory(v, edits) {
      forall i | 0 <= i <= |edits| ensures Recovered(v, edits[..i]) == Installed(v, edits[..i]) {
        assert forall j :: 0 <= j < i ==> edits[..i][..j] == edits[..j];
        RecoverEqualsInstall(v, edits[..i]);
      }
    }
    if EverAgrees(v, edits) {
      AgreementNeedsClean(v, edits);
    }
  }

  // ---------- the builder as it runs ----------

  /** VersionSet::Builder. */
  class VersionBuilder {
    const base: Version
    var levels: BuilderState

    constructor (base: Version)
      ensures this.base == base && levels == EmptyBuilder()
    {
      this.base, levels := base, EmptyBuilder();
    }

    method Apply(edit: FileEdit)
      requires forall p :: p in edit.deleted ==> p.0 < NUM_LEVELS
      requires forall i :: 0 <= i < |edit.added| ==> edit.added[i].0 < NUM_LEVELS
      modifies this
      ensures levels == ApplyEdit(old(levels), edit)
    {
      DeleteFiles(edit);
      ghost var start := levels;
      for i := 0 to |edit.added|
        invariant forall l :: 0 <= l < NUM_LEVELS ==> levels[l] == AddFiles(start[l], l, edit.added[..i])
      {
        var (level, f) := edit.added[i];
        assert edit.added[..i + 1][..i] == edit.added[..i];
        levels := levels[level := AddFile(levels[level], f)];
      }
      assert edit.added[..|edit.added|] == edit.added;
    }

    method DeleteFiles(edit: FileEdit)
      requires forall p :: p in edit.deleted ==> p.0 < NUM_LEVELS
      modifies this
      ensures forall l :: 0 <= l < NUM_LEVELS ==>
        levels[l] == LevelState(old(levels)[l].deleted + DeletedAt(edit, l), old(levels)[l].added)
    {
      var left := edit.deleted;
      while left != {}
        invariant left <= edit.deleted
        invariant forall l :: 0 <= l < NUM_LEVELS ==> levels[l].added == old(levels)[l].added
        invariant forall l, n :: 0 <= l < NUM_LEVELS ==>
          (n in levels[l].deleted <==> n in old(levels)[l].deleted || ((l, n) in edit.deleted && (l, n) !in left))
        decreases |left|
      {
        var p :| p in left;
        levels := levels[p.0 := LevelState(levels[p.0].deleted + {p.1}, levels[p.0].added)];
        left := left - {p};
      }
      forall l | 0 <= l < NUM_LEVELS ensures levels[l].deleted == old(levels)[l].deleted + DeletedAt(edit, l) {
      }
    }

    /** Saves one level; above level 0 the source asserts that each file starts after the last one saved. */
    method SaveLevelTo(level: nat) returns (files: FileList)
      requires level < NUM_LEVELS
      requires level > 0 ==> DisjointFiles(SaveLevel(base[level], levels[level]))
      ensures files == SaveLevel(base[level], levels[level])
    {
      hide DisjointFiles, MergeFiles, DropDeleted, FileBefore;
      var baseFiles, added, deleted := base[level], levels[level].added, levels[level].deleted;
      files := [];
      ghost var all := SaveLevel(base[level], levels[level]);
      var i, j := 0, 0;
      assert baseFiles[0..] == baseFiles && added[0..] == added;
      while i < |baseFiles| || j < |added|
        invariant i <= |baseFiles| && j <= |added|
        invariant files + DropDeleted(MergeFiles(baseFiles[i..], added[j..]), deleted) == all
        decreases |baseFiles| - i + |added| - j
      {
        MergeStep(baseFiles, added, i, j);
        if j == |added| || (i < |baseFiles| && !FileBefore(added[j], baseFiles[i])) {
          files := MaybeAddFile(level, files, baseFiles[i], all, MergeFiles(baseFiles[i + 1..], added[j..]));
          i := i + 1;
        } else {
          files := MaybeAddFile(level, files, added[j], all, MergeFiles(baseFiles[i..], added[j + 1..]));
          j := j + 1;
        }
      }
      NothingLeft(baseFiles, added, i, j, deleted);
    }

    method MaybeAddFile(level: nat, files: FileList, f: FileMeta, ghost all: FileList, ghost rest: FileList)
      returns (r: FileList)
      requires level < NUM_LEVELS && (level > 0 ==> DisjointFiles(all))
      requires files + DropDeleted([f] + rest, levels[level].deleted) == all
      ensures r + DropDeleted(rest, levels[level].deleted) == all
    {
      DropCons(f, rest, levels[level].deleted);
      if f.number in levels[level].deleted {
        r := files;
      } else {
        if level > 0 && files != [] {
          assert all[|files| - 1] == files[|files| - 1] && all[|files|] == f;
          assert Less(files[|files| - 1].largest, f.smallest);
        }
        r := files + [f];
      }
    }

    method SaveTo() returns (v: Version)
      requires forall l :: 0 < l < NUM_LEVELS ==> DisjointFiles(SaveLevel(base[l], levels[l]))
      ensures v == SaveVersion(base, levels)
    {
      var files: seq<FileList> := [];
      for level := 0 to NUM_LEVELS
        invariant |files| == level && forall l :: 0 <= l < level ==> files[l] == SaveLevel(base[l], levels[l])
      {
        var saved := SaveLevelTo(level);
        files := files + [saved];
      }
      v := files;
    }
  }

  lemma MergeStep(base: FileList, added: FileList, i: nat, j: nat)
    requires i <= |base| && j <= |added| && (i < |base| || j < |added|)
    ensures MergeFiles(base[i..], added[j..]) ==
      if j == |added| || (i < |base| && !FileBefore(added[j], base[i]))
        then [base[i]] + MergeFiles(base[i + 1..], added[j..])
        else [added[j]] + MergeFiles(base[i..], added[j + 1..])
  {
    assert i < |base| ==> base[i..][1..] == base[i + 1..];
    assert j < |added| ==> added[j..][1..] == added[j + 1..];
    if j == |added| {
      assert base[i..] == [base[i]] + base[i + 1..];
    }
  }

  lemma NothingLeft(base: FileList, added: FileList, i: nat, j: nat, deleted: set<nat>)
    requires i == |base| && j == |added|
    ensures DropDeleted(MergeFiles(base[i..], added[j..]), deleted) == []
  {
  }

  /** Recover, from the manifest's records to the installed version. */
  method Recover(v: Version, edits: seq<FileEdit>) returns (r: Version)
    requires SortedVersion(v) && CleanHistory(v, edits)
    requires forall i, p :: 0 <= i < |edits| && p in edits[i].deleted ==> p.0 < NUM_LEVELS
    requires forall i, j :: 0 <= i < |edits| && 0 <= j < |edits[i].added| ==> edits[i].added[j].0 < NUM_LEVELS
    requires forall l :: 0 < l < NUM_LEVELS ==> DisjointFiles(Installed(v, edits)[l])
    ensures r == Installed(v, edits)
  {
    var builder := new VersionBuilder(EmptyVersion());
    SnapshotBounded(v, NUM_LEVELS);
    builder.Apply(Snapshot(v));
    for i := 0 to |edits|
      invariant fresh(builder) && builder.levels == Replay(v, edits[..i])
    {
      assert edits[..i + 1][..i] == edits[..i];
      builder.Apply(edits[i]);
    }
    assert edits[..|edits|] == edits;
    RecoverEqualsInstall(v, edits);
    assert forall l :: 0 <= l < NUM_LEVELS ==> SaveLevel(builder.base[l], builder.levels[l]) == Installed(v, edits)[l];
    r := builder.SaveTo();
  }

  lemma {:induction false} SnapshotBounded(v: Version, n: nat)
    requires n <= NUM_LEVELS
    ensures forall i :: 0 <= i < |SnapshotFiles(v, n)| ==> SnapshotFiles(v, n)[i].0 < NUM_LEVELS
  {
    if n == 0 {
    } else {
      SnapshotBounded(v, n - 1);
    }
  }
}
