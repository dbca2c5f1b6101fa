/** Compactions: how a trivial move and a merge rearrange the store, that they keep its invariant
    and every read, and exactly when a user key split between an input and a file left behind
    spoils that.
  */
module LsmCompactions {
  import opened Keys
  import opened Versions
  import opened CompactionPick
  import opened CompactionWork
  import opened Sequences
  import opened Lsm
  import opened LsmSteps

  // ---------- moving entries down one level ----------

  ghost function PlaceOf(level: nat, f: FileMeta): Place {
    if level == 0 then InL0(f.number) else InLevel(level)
  }

  /** `e` is in a file of `level` that is not among the inputs, at place `p`. */
  ghost predicate Stays(db: Db, level: nat, inputs: FileList, p: Place, e: Entry)
    requires level < NUM_LEVELS
  {
    exists f :: f in db.version[level] && f !in inputs && p == PlaceOf(level, f) && InFile(db, f, e)
  }

  ghost predicate InputPlace(level: nat, p: Place) {
    (level == 0 && p.InL0?) || (level > 0 && p == InLevel(level))
  }

  /** `e` is stored at `p` outside the input files. */
  ghost predicate Untouched(db: Db, level: nat, in0: FileList, in1: FileList, p: Place, e: Entry)
    requires level + 1 < NUM_LEVELS
  {
    if p == InLevel(level + 1) then Stays(db, level + 1, in1, p, e)
    else if InputPlace(level, p) then Stays(db, level, in0, p, e)
    else At(db, p, e)
  }

  /** Effect of a compaction on places: inputs leave their levels, `out` appears at level+1. */
  ghost predicate Compacted(db: Db, db': Db, level: nat, in0: FileList, in1: FileList, out: iset<Entry>)
    requires level + 1 < NUM_LEVELS
  {
    forall p, e :: At(db', p, e) <==>
      Untouched(db, level, in0, in1, p, e) || (p == InLevel(level + 1) && e in out)
  }

  ghost predicate FromInputs(db: Db, in0: FileList, in1: FileList, out: iset<Entry>) {
    forall e :: e in out ==> exists f :: f in in0 + in1 && InFile(db, f, e)
  }

  lemma InFileAt(db: Db, level: nat, f: FileMeta, e: Entry)
    requires level < NUM_LEVELS && f in db.version[level] && InFile(db, f, e)
    ensures At(db, PlaceOf(level, f), e)
  {
  }

  /** A file left behind at the input level holds only newer entries for keys it shares with an input. */
  lemma LeftBehindIsNewer(db: Db, level: nat, in0: FileList, f: FileMeta, g: FileMeta, e: Entry, o: Entry)
    requires level < NUM_LEVELS && in0 != [] && f in in0 && f in db.version[level]
    requires g in db.version[level] && g !in in0 && FileOk(db, f) && FileOk(db, g)
    requires level == 0 ==> ClosedInputs(db.version[0], in0)
    requires level > 0 ==> DisjointFiles(db.version[level])
    requires InFile(db, g, e) && InFile(db, f, o) && e.key.user == o.key.user && ClearOf(db.version[level], in0, o)
    ensures Less(e.key, o.key)
  {
    RunEntryBounds(Contents(db, g), e);
    RunEntryBounds(Contents(db, f), o);
    if level > 0 {
      DisjointMeansApart(db.version[level], f, g);
    }
  }

  ghost predicate InputsOk(db: Db, level: nat, in0: FileList, in1: FileList) {
    ValidPick(db.version, level, in0, in1) && TablesOk(db) && UniqueSeqs(All(db)) &&
    (level > 0 ==> DisjointFiles(db.version[level])) && DisjointFiles(db.version[level + 1])
  }

  lemma StayingIsNewer(db: Db, level: nat, in0: FileList, in1: FileList, p: Place, e: Entry, f: FileMeta, o: Entry)
    requires InputsOk(db, level, in0, in1)
    requires f in in0 && InFile(db, f, o) && e.key.user == o.key.user && ClearOf(db.version[level], in0, o)
    requires InputPlace(level, p) && Stays(db, level, in0, p, e)
    ensures e.key.sequence > o.key.sequence
  {
    var g :| g in db.version[level] && g !in in0 && p == PlaceOf(level, g) && InFile(db, g, e);
    assert FileOk(db, f) && FileOk(db, g);
    LeftBehindIsNewer(db, level, in0, f, g, e, o);
    InFileAt(db, level, f, o);
    InFileAt(db, level, g, e);
    assert e in All(db) && o in All(db);
  }

  lemma SunkIsOlder(db: Db, level: nat, in0: FileList, in1: FileList, p: Place, e: Entry, f: FileMeta, o: Entry)
    requires InputsOk(db, level, in0, in1) && AgeOrdered(db)
    requires f in in0 && InFile(db, f, o) && e.key.user == o.key.user && ClearOf(db.version[level], in0, o)
    requires Newer(p, InLevel(level + 1))
    requires Untouched(db, level, in0, in1, p, e)
    ensures e.key.sequence > o.key.sequence
  {
    InFileAt(db, level, f, o);
    if InputPlace(level, p) {
      StayingIsNewer(db, level, in0, in1, p, e, f, o);
    } else {
      assert Newer(p, PlaceOf(level, f));
    }
  }

  lemma OldPlace(db: Db, db': Db, level: nat, in0: FileList, in1: FileList, out: iset<Entry>, p: Place, e: Entry)
    requires ValidPick(db.version, level, in0, in1) && Compacted(db, db', level, in0, in1, out)
    requires FromInputs(db, in0, in1, out) && At(db', p, e)
    ensures At(db, p, e) || (p == InLevel(level + 1) && e in out && exists f :: f in in0 && InFile(db, f, e))
  {
    if p == InLevel(level + 1) && e in out {
      var f :| f in in0 + in1 && InFile(db, f, e);
      if f in in1 { InFileAt(db, level + 1, f, e); }
    }
  }

  lemma CompactedPair(db: Db, db': Db, level: nat, in0: FileList, in1: FileList, out: iset<Entry>,
                      p: Place, q: Place, e: Entry, o: Entry)
    requires InputsOk(db, level, in0, in1) && AgeOrdered(db) && OutputsClear(db.version, level, in0, out)
    requires Compacted(db, db', level, in0, in1, out) && FromInputs(db, in0, in1, out)
    requires At(db', p, e) && At(db', q, o) && Newer(p, q) && e.key.user == o.key.user
    ensures e.key.sequence > o.key.sequence
  {
    OldPlace(db, db', level, in0, in1, out, p, e);
    OldPlace(db, db', level, in0, in1, out, q, o);
    if !At(db, q, o) {
      var f :| f in in0 && InFile(db, f, o);
      SunkIsOlder(db, level, in0, in1, p, e, f, o);
    } else if !At(db, p, e) {
      var f :| f in in0 && InFile(db, f, e);
      InFileAt(db, level, f, e);
      assert Newer(PlaceOf(level, f), q);
    }
  }

  /** A compaction keeps the age order exactly when nothing it writes comes before a file left
      behind at its level that starts with the same user key. */
  lemma CompactedAgeIff(db: Db, db': Db, level: nat, in0: FileList, in1: FileList, out: iset<Entry>)
    requires Inv(db) && ValidPick(db.version, level, in0, in1)
    requires Compacted(db, db', level, in0, in1, out) && FromInputs(db, in0, in1, out)
    ensures AgeOrdered(db') <==> OutputsClear(db.version, level, in0, out)
  {
    if OutputsClear(db.version, level, in0, out) {
      AllUnique(db);
      assert InputsOk(db, level, in0, in1);
      forall p, q, e, o | At(db', p, e) && At(db', q, o) && Newer(p, q) && e.key.user == o.key.user
        ensures e.key.sequence > o.key.sequence
      {
        CompactedPair(db, db', level, in0, in1, out, p, q, e, o);
      }
    } else {
      var e :| e in out && !ClearOf(db.version[level], in0, e);
      var g :| g in db.version[level] && g !in in0 && e.key.user == g.smallest.user && Less(e.key, g.smallest);
      assert FileOk(db, g);
      SunkBelow(db, db', level, in0, in1, out, e, g);
    }
  }

  lemma SunkBelow(db: Db, db': Db, level: nat, in0: FileList, in1: FileList, out: iset<Entry>, e: Entry, g: FileMeta)
    requires level + 1 < NUM_LEVELS && Compacted(db, db', level, in0, in1, out) && e in out
    requires g in db.version[level] && g !in in0 && FileOk(db, g)
    requires e.key.user == g.smallest.user && Less(e.key, g.smallest)
    ensures !AgeOrdered(db')
  {
    var first, p := Contents(db, g)[0], PlaceOf(level, g);
    assert InFile(db, g, first) && Stays(db, level, in0, p, first);
    assert At(db', p, first) && At(db', InLevel(level + 1), e);
    assert Newer(p, InLevel(level + 1));
  }

  lemma CompactedSubset(db: Db, db': Db, level: nat, in0: FileList, in1: FileList, out: iset<Entry>)
    requires AgeOrdered(db) && UniquePlaces(db) && Bounded(db) && db'.lastSequence == db.lastSequence
    requires ValidPick(db.version, level, in0, in1)
    requires Compacted(db, db', level, in0, in1, out) && FromInputs(db, in0, in1, out)
    ensures UniquePlaces(db') && Bounded(db')
  {
    forall p, e | At(db', p, e) ensures e in All(db) && e.key.sequence <= db.lastSequence {
      OldPlace(db, db', level, in0, in1, out, p, e);
      if !At(db, p, e) {
        var f :| f in in0 && InFile(db, f, e);
        InFileAt(db, level, f, e);
      }
    }
    AllUnique(db);
  }

  // ---------- trivial move ----------

  lemma MoveSound(db: Db, db': Db, level: nat, f: FileMeta)
    requires TablesOk(db) && ValidPick(db.version, level, [f], [])
    requires f.largest.sequence <= MAX_SEQUENCE
    requires forall l, g :: 0 <= l < NUM_LEVELS && g in db.version[l] && g.number == f.number ==> l == level
    requires db'.tables == db.tables && db'.nextFile == db.nextFile
    ensures TablesKept(db, db') && SoundEdit(db, db', MoveEdit(level, f))
  {
    var edit := MoveEdit(level, f);
    assert f in [f] && FileOk(db, f) && FileOk(db', f);
    FileRangeOk(db, f);
    assert LoUser([f]) == f.smallest.user && HiUser([f]) == f.largest.user;
    forall g | g in db.version[level + 1] ensures Apart(f, g) {
      assert FileOk(db, g);
      FileRangeOk(db, g);
      assert !Overlaps(g, Some(f.smallest.user), Some(f.largest.user));
    }
    assert edit.added == [(level + 1, f)] && edit.deleted == {(level, f.number)};
  }

  lemma MoveCompacts(db: Db, db': Db, level: nat, f: FileMeta)
    requires FilesOk(db) && ValidPick(db.version, level, [f], [])
    requires db' == db.(version := Install(db.version, MoveEdit(level, f)))
    ensures FilesOk(db') && Compacted(db, db', level, [f], [], Of(Contents(db, f)))
    ensures forall l, g :: 0 <= l < NUM_LEVELS ==>
      (g in db'.version[l] <==> Listed(db.version, MoveEdit(level, f), l, g))
  {
    assert f in [f];
    MoveSound(db, db', level, f);
    InstallOk(db, db', MoveEdit(level, f));
    forall p, e ensures At(db', p, e) <==>
      Untouched(db, level, [f], [], p, e) || (p == InLevel(level + 1) && e in Contents(db, f))
    {
      MoveAt(db, db', level, f, p, e);
    }
  }

  lemma MoveAt(db: Db, db': Db, level: nat, f: FileMeta, p: Place, e: Entry)
    requires level + 1 < NUM_LEVELS && f in db.version[level]
    requires db'.mem == db.mem && db'.imm == db.imm && db'.tables == db.tables
    requires forall g :: g in db.version[level] && g.number == f.number ==> g == f
    requires forall l, g :: 0 <= l < NUM_LEVELS ==>
      (g in db'.version[l] <==> Listed(db.version, MoveEdit(level, f), l, g))
    ensures At(db', p, e) <==>
      Untouched(db, level, [f], [], p, e) || (p == InLevel(level + 1) && e in Contents(db, f))
  {
    assert MoveEdit(level, f).added == [(level + 1, f)];
    assert forall g :: Contents(db', g) == Contents(db, g);
    if p.InL0? || (p.InLevel? && 1 <= p.level < NUM_LEVELS) {
      var l := if p.InL0? then 0 else p.level;
      assert forall g :: g in db'.version[l] <==>
        (g in db.version[l] && !(l == level && g == f)) || (l == level + 1 && g == f);
      if p == InLevel(level + 1) && e in Contents(db, f) {
        assert f in db'.version[l] && InFile(db', f, e);
      }
    }
  }

  lemma MoveOutputs(db: Db, f: FileMeta)
    ensures FromInputs(db, [f], [], Of(Contents(db, f)))
  {
    assert f in [f] + [];
  }

  lemma MoveInv(db: Db, level: nat, f: FileMeta)
    requires Inv(db) && Enabled(db, Move(level, f))
    ensures Inv(After(db, Move(level, f))) && All(After(db, Move(level, f))) == All(db)
  {
    var db' := After(db, Move(level, f));
    var out := Of(Contents(db, f));
    MoveCompacts(db, db', level, f);
    MoveOutputs(db, f);
    CompactedAgeIff(db, db', level, [f], [], out);
    CompactedSubset(db, db', level, [f], [], out);
    forall e ensures e in All(db') <==> e in All(db) {
      if e in All(db') {
        var p :| At(db', p, e);
        OldPlace(db, db', level, [f], [], out, p, e);
        if !At(db, p, e) { InFileAt(db, level, f, e); }
      }
      if e in All(db) {
        var p :| At(db, p, e);
        MoveKeepsEntry(db, db', level, f, p, e);
      }
    }
    assert All(db') == All(db);
  }

  lemma MoveKeepsEntry(db: Db, db': Db, level: nat, f: FileMeta, p: Place, e: Entry)
    requires level + 1 < NUM_LEVELS && f in db.version[level]
    requires Compacted(db, db', level, [f], [], Of(Contents(db, f))) && At(db, p, e)
    ensures exists q :: At(db', q, e)
  {
    if InputPlace(level, p) {
      var g :| g in db.version[level] && InFile(db, g, e) && p == PlaceOf(level, g);
      if g == f {
        assert InFile(db, f, e);
        assert e in Of(Contents(db, f));
        assert At(db', InLevel(level + 1), e);
      } else { assert Stays(db, level, [f], p, e) && At(db', p, e); }
    } else if p == InLevel(level + 1) {
      assert Stays(db, level + 1, [], p, e) && At(db', p, e);
    } else {
      assert At(db', p, e);
    }
  }

  /** A trivial move from a deeper level keeps the age order exactly when no file left behind
      starts with the moved file's last user key. */
  lemma MoveKeepsAgeIffBoundaryClear(db: Db, level: nat, f: FileMeta)
    requires Inv(db) && level > 0 && Ready(db, Move(level, f))
    ensures AgeOrdered(After(db, Move(level, f))) <==> BoundaryClear(db.version[level], [f])
  {
    var db' := After(db, Move(level, f));
    MoveCompacts(db, db', level, f);
    MoveOutputs(db, f);
    CompactedAgeIff(db, db', level, [f], [], Of(Contents(db, f)));
    assert f in [f];
    MoveClearIff(db, level, f);
  }

  lemma MoveClearIff(db: Db, level: nat, f: FileMeta)
    requires 0 < level < NUM_LEVELS && DisjointFiles(db.version[level]) && TablesOk(db) && f in db.version[level]
    ensures OutputsClear(db.version, level, [f], Of(Contents(db, f))) <==> BoundaryClear(db.version[level], [f])
  {
    assert FileOk(db, f);
    var run := Contents(db, f);
    if BoundaryClear(db.version[level], [f]) {
      forall e, g | e in run && g in db.version[level] && g !in [f] && e.key.user == g.smallest.user
        ensures !Less(e.key, g.smallest)
      {
        assert FileOk(db, g);
        RunEntryBounds(run, e);
        FileRangeOk(db, g);
        DisjointMeansApart(db.version[level], f, g);
      }
    } else {
      assert run[|run| - 1] in Of(run);
    }
  }

  // ---------- merge compaction ----------

  lemma {:induction false} FlattenMembers(outs: seq<Run>, e: Entry)
    ensures e in Flatten(outs) <==> exists i :: 0 <= i < |outs| && e in outs[i]
  {
    if outs == [] {
    } else {
      FlattenMembers(outs[..|outs| - 1], e);
    }
  }

  /** Pieces of a sorted run are sorted, and earlier pieces come before later ones. */
  lemma {:induction false} PiecesOrdered(outs: seq<Run>, i: nat, j: nat)
    requires Sorted(Flatten(outs)) && i <= j < |outs|
    ensures Sorted(outs[j])
    ensures i < j ==> forall e, o :: e in outs[i] && o in outs[j] ==> Less(e.key, o.key)
    decreases |outs|
  {
    var n := |outs| - 1;
    var init, last, all := Flatten(outs[..n]), outs[n], Flatten(outs);
    assert forall a :: 0 <= a < |init| ==> all[a] == init[a];
    assert forall a :: 0 <= a < |last| ==> all[|init| + a] == last[a];
    if j < n {
      PiecesOrdered(outs[..n], i, j);
    } else {
      assert outs[j] == last;
      forall a, b | 0 <= a < b < |last| ensures Less(last[a].key, last[b].key) {
        assert all[|init| + a] == last[a] && all[|init| + b] == last[b];
      }
      forall e, o | i < j && e in outs[i] && o in last ensures Less(e.key, o.key) {
        FlattenMembers(outs[..n], e);
        assert outs[..n][i] == outs[i];
        var a :| 0 <= a < |init| && init[a] == e;
        var b :| 0 <= b < |last| && last[b] == o;
        assert all[a] == e && all[|init| + b] == o;
      }
    }
  }

  /** A file left behind at level+1 lies entirely before or entirely after every input entry. */
  lemma SeparateFromInputs(db: Db, level: nat, in0: FileList, in1: FileList, g: FileMeta)
    requires TablesOk(db) && ValidPick(db.version, level, in0, in1) && DisjointFiles(db.version[level + 1])
    requires g in db.version[level + 1] && g !in in1
    ensures (forall f, e :: f in in0 + in1 && InFile(db, f, e) ==> Less(g.largest, e.key))
         || (forall f, e :: f in in0 + in1 && InFile(db, f, e) ==> Less(e.key, g.smallest))
  {
    assert FileOk(db, g);
    FileRangeOk(db, g);
    var lo, hi := LoUser(in0), HiUser(in0);
    assert !Overlaps(g, Some(lo), Some(hi));
    forall f, e | f in in0 + in1 && InFile(db, f, e)
      ensures if g.largest.user < lo then Less(g.largest, e.key) else Less(e.key, g.smallest)
    {
      assert FileOk(db, f);
      RunEntryBounds(Contents(db, f), e);
      if f in in1 {
        assert f in db.version[level + 1] && Overlaps(f, Some(lo), Some(hi));
        DisjointMeansApart(db.version[level + 1], f, g);
      }
    }
  }

  ghost predicate MergeOutputs(db: Db, db': Db, outs: seq<Run>) {
    db'.nextFile == db.nextFile + |outs| && db'.tables == MergeTables(db.tables, db.nextFile, outs) &&
    Sorted(Flatten(outs)) && forall i :: 0 <= i < |outs| ==> outs[i] != []
  }

  lemma MergedFile(db: Db, db': Db, outs: seq<Run>, i: nat, size: nat)
    requires MergeOutputs(db, db', outs) && i < |outs|
    ensures var f := MetaOf(db.nextFile + i, size, outs[i]);
      FileOk(db', f) && Contents(db', f) == outs[i]
  {
    PiecesOrdered(outs, i, i);
  }

  lemma DeletedInputs(db: Db, level: nat, in0: FileList, in1: FileList, l: nat, g: FileMeta)
    requires NumbersUnique(db) && ValidPick(db.version, level, in0, in1) && l < NUM_LEVELS && g in db.version[l]
    ensures (l, g.number) in InputDeletions(level, in0, in1) <==>
      (l == level && g in in0) || (l == level + 1 && g in in1)
  {
    if (l, g.number) in InputDeletions(level, in0, in1) {
      if l == level {
        var f :| f in in0 && f.number == g.number;
      } else {
        var f :| f in in1 && f.number == g.number;
      }
    }
  }

  lemma MergedSequence(outs: seq<Run>, i: nat, max: nat)
    requires i < |outs| && outs[i] != [] && forall e :: e in Flatten(outs) ==> e.key.sequence <= max
    ensures outs[i][|outs[i]| - 1].key.sequence <= max
  {
    FlattenMembers(outs, outs[i][|outs[i]| - 1]);
  }

  lemma AddedIndex(db: Db, level: nat, in0: FileList, in1: FileList, outs: seq<Run>, sizes: seq<nat>, l: nat,
                   f: FileMeta)
    returns (i: nat)
    requires |sizes| == |outs| && (forall n :: 0 <= n < |outs| ==> outs[n] != [])
    requires (l, f) in MergeEdit(db, level, in0, in1, outs, sizes).added
    ensures i < |outs| && l == level + 1 && f == MetaOf(db.nextFile + i, sizes[i], outs[i])
  {
    var added := MergeEdit(db, level, in0, in1, outs, sizes).added;
    i :| 0 <= i < |added| && added[i] == (l, f);
  }

  lemma AddedOk(db: Db, db': Db, level: nat, in0: FileList, in1: FileList, outs: seq<Run>, sizes: seq<nat>, l: nat,
                f: FileMeta)
    requires MergeOutputs(db, db', outs) && |sizes| == |outs|
    requires forall e :: e in Flatten(outs) ==> e.key.sequence <= MAX_SEQUENCE
    requires (l, f) in MergeEdit(db, level, in0, in1, outs, sizes).added
    ensures l == level + 1 && FileOk(db', f) && f.number >= db.nextFile && f.largest.sequence <= MAX_SEQUENCE
  {
    var i := AddedIndex(db, level, in0, in1, outs, sizes, l, f);
    MergedFile(db, db', outs, i, sizes[i]);
    MergedSequence(outs, i, MAX_SEQUENCE);
  }

  lemma MergeSound(db: Db, db': Db, level: nat, in0: FileList, in1: FileList, outs: seq<Run>, sizes: seq<nat>)
    requires TablesOk(db) && NumbersUnique(db) && level + 1 < NUM_LEVELS && DisjointFiles(db.version[level + 1])
    requires ValidPick(db.version, level, in0, in1)
    requires MergeOutputs(db, db', outs) && |sizes| == |outs|
    requires FromInputs(db, in0, in1, Of(Flatten(outs)))
    requires forall e :: e in Flatten(outs) ==> e.key.sequence <= MAX_SEQUENCE
    ensures TablesKept(db, db') && SoundEdit(db, db', MergeEdit(db, level, in0, in1, outs, sizes))
  {
    MergeAddedOk(db, db', level, in0, in1, outs, sizes);
    forall l: nat, f, g | 1 <= l < NUM_LEVELS && (l, f) in MergeEdit(db, level, in0, in1, outs, sizes).added &&
      Listed(db.version, MergeEdit(db, level, in0, in1, outs, sizes), l, g) && f != g
      ensures Apart(f, g)
    {
      var _ := AddedIndex(db, level, in0, in1, outs, sizes, l, f);
      MergedApart(db, level, in0, in1, outs, sizes, f, g);
    }
  }

  lemma MergeAddedOk(db: Db, db': Db, level: nat, in0: FileList, in1: FileList, outs: seq<Run>, sizes: seq<nat>)
    requires TablesOk(db) && ValidPick(db.version, level, in0, in1)
    requires MergeOutputs(db, db', outs) && |sizes| == |outs|
    requires forall e :: e in Flatten(outs) ==> e.key.sequence <= MAX_SEQUENCE
    ensures AddedSound(db', MergeEdit(db, level, in0, in1, outs, sizes))
    ensures AddedNumbered(db, MergeEdit(db, level, in0, in1, outs, sizes))
  {
    AllAddedOk(db, db', level, in0, in1, outs, sizes);
    EditNumbers(db, level, in0, in1, outs, sizes);
    FreshNumbers(db, db', level, in0, in1, MergeEdit(db, level, in0, in1, outs, sizes));
  }

  lemma EditNumbers(db: Db, level: nat, in0: FileList, in1: FileList, outs: seq<Run>, sizes: seq<nat>)
    requires |sizes| == |outs| && forall i :: 0 <= i < |outs| ==> outs[i] != []
    ensures var edit := MergeEdit(db, level, in0, in1, outs, sizes);
      edit.deleted == InputDeletions(level, in0, in1) &&
      forall i :: 0 <= i < |edit.added| ==> edit.added[i].1.number == db.nextFile + i
  {
  }

  lemma AllAddedOk(db: Db, db': Db, level: nat, in0: FileList, in1: FileList, outs: seq<Run>, sizes: seq<nat>)
    requires TablesOk(db) && ValidPick(db.version, level, in0, in1)
    requires MergeOutputs(db, db', outs) && |sizes| == |outs|
    requires forall e :: e in Flatten(outs) ==> e.key.sequence <= MAX_SEQUENCE
    ensures forall l: nat, f :: (l, f) in MergeEdit(db, level, in0, in1, outs, sizes).added ==>
      l == level + 1 && FileOk(db', f) && f.number >= db.nextFile && f.largest.sequence <= MAX_SEQUENCE
  {
    forall l: nat, f | (l, f) in MergeEdit(db, level, in0, in1, outs, sizes).added
      ensures l == level + 1 && FileOk(db', f) && f.number >= db.nextFile && f.largest.sequence <= MAX_SEQUENCE
    {
      AddedOk(db, db', level, in0, in1, outs, sizes, l, f);
    }
  }

  lemma FreshNumbers(db: Db, db': Db, level: nat, in0: FileList, in1: FileList, edit: FileEdit)
    requires TablesOk(db) && ValidPick(db.version, level, in0, in1) && edit.deleted == InputDeletions(level, in0, in1)
    requires forall i :: 0 <= i < |edit.added| ==> edit.added[i].1.number == db.nextFile + i
    requires forall l: nat, f :: (l, f) in edit.added ==>
      l == level + 1 && FileOk(db', f) && f.number >= db.nextFile && f.largest.sequence <= MAX_SEQUENCE
    ensures AddedSound(db', edit) && AddedNumbered(db, edit)
  {
    MergeNumbers(db, level, in0, in1);
  }

  lemma MergeNumbers(db: Db, level: nat, in0: FileList, in1: FileList)
    requires TablesOk(db) && ValidPick(db.version, level, in0, in1)
    ensures forall l: nat, n: nat :: (l, n) in InputDeletions(level, in0, in1) ==> n < db.nextFile
    ensures forall m: nat, g :: m < NUM_LEVELS && g in db.version[m] ==> g.number < db.nextFile
  {
    forall l: nat, n: nat | (l, n) in InputDeletions(level, in0, in1) ensures n < db.nextFile {
      var f :| (f in in0 || f in in1) && f.number == n;
      assert FileOk(db, f);
    }
    forall m: nat, g | m < NUM_LEVELS && g in db.version[m] ensures g.number < db.nextFile {
      assert FileOk(db, g);
    }
  }

  lemma MergedApart(db: Db, level: nat, in0: FileList, in1: FileList, outs: seq<Run>, sizes: seq<nat>,
                    f: FileMeta, g: FileMeta)
    requires TablesOk(db) && NumbersUnique(db) && level + 1 < NUM_LEVELS && DisjointFiles(db.version[level + 1])
    requires ValidPick(db.version, level, in0, in1) && |sizes| == |outs|
    requires Sorted(Flatten(outs)) && (forall i :: 0 <= i < |outs| ==> outs[i] != [])
    requires FromInputs(db, in0, in1, Of(Flatten(outs)))
    requires (level + 1, f) in MergeEdit(db, level, in0, in1, outs, sizes).added && f != g
    requires Listed(db.version, MergeEdit(db, level, in0, in1, outs, sizes), level + 1, g)
    ensures Apart(f, g)
  {
    hide TablesOk, NumbersUnique, FromInputs, ValidPick;
    var i := AddedIndex(db, level, in0, in1, outs, sizes, level + 1, f);
    if (level + 1, g) in MergeEdit(db, level, in0, in1, outs, sizes).added {
      var j := AddedIndex(db, level, in0, in1, outs, sizes, level + 1, g);
      OutputsApart(db, outs, sizes, i, j);
    } else {
      DeletedInputs(db, level, in0, in1, level + 1, g);
      OutputApartFromOld(db, level, in0, in1, outs, sizes, i, g);
    }
  }

  lemma OutputsApart(db: Db, outs: seq<Run>, sizes: seq<nat>, i: nat, j: nat)
    requires |sizes| == |outs| && i < |outs| && j < |outs| && i != j
    requires Sorted(Flatten(outs)) && (forall n :: 0 <= n < |outs| ==> outs[n] != [])
    ensures Apart(MetaOf(db.nextFile + i, sizes[i], outs[i]), MetaOf(db.nextFile + j, sizes[j], outs[j]))
  {
    PiecesOrdered(outs, if i < j then i else j, if i < j then j else i);
    assert outs[i][0] in outs[i] && outs[i][|outs[i]| - 1] in outs[i];
    assert outs[j][0] in outs[j] && outs[j][|outs[j]| - 1] in outs[j];
  }

  lemma OutputApartFromOld(db: Db, level: nat, in0: FileList, in1: FileList, outs: seq<Run>, sizes: seq<nat>,
                           i: nat, g: FileMeta)
    requires TablesOk(db) && ValidPick(db.version, level, in0, in1) && DisjointFiles(db.version[level + 1])
    requires |sizes| == |outs| && i < |outs| && outs[i] != []
    requires FromInputs(db, in0, in1, Of(Flatten(outs)))
    requires g in db.version[level + 1] && g !in in1
    ensures Apart(MetaOf(db.nextFile + i, sizes[i], outs[i]), g)
  {
    var first, last := outs[i][0], outs[i][|outs[i]| - 1];
    SeparateFromInputs(db, level, in0, in1, g);
    FlattenMembers(outs, first);
    FlattenMembers(outs, last);
    assert first in Of(Flatten(outs)) && last in Of(Flatten(outs));
    var f :| f in in0 + in1 && InFile(db, f, first);
    var h :| h in in0 + in1 && InFile(db, h, last);
  }

  lemma MergeAtLevel(db: Db, db': Db, level: nat, in0: FileList, in1: FileList, outs: seq<Run>, sizes: seq<nat>,
                     l: nat, p: Place, e: Entry)
    requires TablesOk(db) && NumbersUnique(db) && ValidPick(db.version, level, in0, in1) && l < NUM_LEVELS
    requires MergeOutputs(db, db', outs) && |sizes| == |outs|
    requires forall g :: g in db'.version[l] <==> Listed(db.version, MergeEdit(db, level, in0, in1, outs, sizes), l, g)
    requires if p.InL0? then l == 0 else p == InLevel(l) && l > 0
    requires At(db', p, e)
    ensures Untouched(db, level, in0, in1, p, e) || (p == InLevel(level + 1) && e in Of(Flatten(outs)))
  {
    var f :| f in db'.version[l] && InFile(db', f, e) && (p.InL0? ==> f.number == p.number);
    MergeAtOnlyIf(db, db', level, in0, in1, outs, sizes, l, p, f, e);
  }

  lemma MergeAt(db: Db, db': Db, level: nat, in0: FileList, in1: FileList, outs: seq<Run>, sizes: seq<nat>, p: Place,
                e: Entry)
    requires TablesOk(db) && NumbersUnique(db) && ValidPick(db.version, level, in0, in1)
    requires MergeOutputs(db, db', outs) && |sizes| == |outs| && db'.mem == db.mem && db'.imm == db.imm
    requires forall l, g :: 0 <= l < NUM_LEVELS ==>
      (g in db'.version[l] <==> Listed(db.version, MergeEdit(db, level, in0, in1, outs, sizes), l, g))
    ensures At(db', p, e) <==>
      Untouched(db, level, in0, in1, p, e) || (p == InLevel(level + 1) && e in Of(Flatten(outs)))
  {
    if p.InL0? || (p.InLevel? && 1 <= p.level < NUM_LEVELS) {
      var l := if p.InL0? then 0 else p.level;
      if At(db', p, e) {
        MergeAtLevel(db, db', level, in0, in1, outs, sizes, l, p, e);
      } else if Untouched(db, level, in0, in1, p, e) {
        MergeKeepsUntouched(db, db', level, in0, in1, outs, sizes, l, p, e);
      } else if p == InLevel(level + 1) && e in Flatten(outs) {
        MergeAddsOutputs(db, db', level, in0, in1, outs, sizes, l, e);
      }
    }
  }

  lemma MergeKeepsUntouched(db: Db, db': Db, level: nat, in0: FileList, in1: FileList, outs: seq<Run>, sizes: seq<nat>,
                            l: nat, p: Place, e: Entry)
    requires TablesOk(db) && NumbersUnique(db) && ValidPick(db.version, level, in0, in1) && l < NUM_LEVELS
    requires MergeOutputs(db, db', outs) && |sizes| == |outs|
    requires forall g :: g in db'.version[l] <==> Listed(db.version, MergeEdit(db, level, in0, in1, outs, sizes), l, g)
    requires if p.InL0? then l == 0 else p == InLevel(l) && l > 0
    requires Untouched(db, level, in0, in1, p, e)
    ensures At(db', p, e)
  {
    var f :| f in db.version[l] && InFile(db, f, e) && p == PlaceOf(l, f) &&
      !((l == level && f in in0) || (l == level + 1 && f in in1));
    DeletedInputs(db, level, in0, in1, l, f);
    KeptFileOk(db, db', f);
    assert InFile(db, f, e) && p == PlaceOf(l, f);
    InFileAt(db', l, f, e);
  }

  lemma MergeAddsOutputs(db: Db, db': Db, level: nat, in0: FileList, in1: FileList, outs: seq<Run>, sizes: seq<nat>,
                         l: nat, e: Entry)
    requires l == level + 1 < NUM_LEVELS && MergeOutputs(db, db', outs) && |sizes| == |outs|
    requires forall g :: g in db'.version[l] <==> Listed(db.version, MergeEdit(db, level, in0, in1, outs, sizes), l, g)
    requires e in Flatten(outs)
    ensures At(db', InLevel(l), e)
  {
    FlattenMembers(outs, e);
    var i :| 0 <= i < |outs| && e in outs[i];
    var f := MetaOf(db.nextFile + i, sizes[i], outs[i]);
    MergedFile(db, db', outs, i, sizes[i]);
    OutputListed(db, level, in0, in1, outs, sizes, i);
    assert f in db'.version[l] && InFile(db', f, e);
  }

  lemma OutputListed(db: Db, level: nat, in0: FileList, in1: FileList, outs: seq<Run>, sizes: seq<nat>, i: nat)
    requires level + 1 < NUM_LEVELS && |sizes| == |outs| && i < |outs| && forall j :: 0 <= j < |outs| ==> outs[j] != []
    ensures Listed(db.version, MergeEdit(db, level, in0, in1, outs, sizes), level + 1,
                   MetaOf(db.nextFile + i, sizes[i], outs[i]))
  {
    assert MergeEdit(db, level, in0, in1, outs, sizes).added[i]
      == (level + 1, MetaOf(db.nextFile + i, sizes[i], outs[i]));
  }

  lemma MergeAtOnlyIf(db: Db, db': Db, level: nat, in0: FileList, in1: FileList, outs: seq<Run>, sizes: seq<nat>,
                      l: nat, p: Place, f: FileMeta, e: Entry)
    requires TablesOk(db) && NumbersUnique(db) && ValidPick(db.version, level, in0, in1) && l < NUM_LEVELS
    requires MergeOutputs(db, db', outs) && |sizes| == |outs|
    requires Listed(db.version, MergeEdit(db, level, in0, in1, outs, sizes), l, f) && InFile(db', f, e)
    requires if p.InL0? then l == 0 && f.number == p.number else p == InLevel(l) && l > 0
    ensures Untouched(db, level, in0, in1, p, e) || (p == InLevel(level + 1) && e in Of(Flatten(outs)))
  {
    if (l, f) in MergeEdit(db, level, in0, in1, outs, sizes).added {
      var i := AddedIndex(db, level, in0, in1, outs, sizes, l, f);
      MergedFile(db, db', outs, i, sizes[i]);
      FlattenMembers(outs, e);
    } else {
      DeletedInputs(db, level, in0, in1, l, f);
      assert FileOk(db, f);
      assert InFile(db, f, e) && p == PlaceOf(l, f);
      InFileAt(db, l, f, e);
    }
  }

  lemma MergeCompacts(db: Db, db': Db, level: nat, in0: FileList, in1: FileList, outs: seq<Run>, sizes: seq<nat>)
    requires FilesOk(db) && ValidPick(db.version, level, in0, in1)
    requires MergeOutputs(db, db', outs) && |sizes| == |outs| && db'.mem == db.mem && db'.imm == db.imm
    requires db'.version == Install(db.version, MergeEdit(db, level, in0, in1, outs, sizes))
    requires FromInputs(db, in0, in1, Of(Flatten(outs)))
    requires forall e :: e in Flatten(outs) ==> e.key.sequence <= MAX_SEQUENCE
    ensures FilesOk(db') && Compacted(db, db', level, in0, in1, Of(Flatten(outs)))
  {
    MergeSound(db, db', level, in0, in1, outs, sizes);
    InstallOk(db, db', MergeEdit(db, level, in0, in1, outs, sizes));
    forall p, e ensures At(db', p, e) <==>
      Untouched(db, level, in0, in1, p, e) || (p == InLevel(level + 1) && e in Of(Flatten(outs)))
    {
      MergeAt(db, db', level, in0, in1, outs, sizes, p, e);
    }
  }

  /** The entries outside the input files. */
  ghost function Rest(db: Db, level: nat, in0: FileList, in1: FileList): iset<Entry>
    requires level + 1 < NUM_LEVELS
  {
    iset e, p | Untouched(db, level, in0, in1, p, e) :: e
  }

  lemma SplitAll(db: Db, level: nat, in0: FileList, in1: FileList, stream: Run)
    requires ValidPick(db.version, level, in0, in1) && IsStream(db, in0, in1, stream)
    ensures All(db) == Rest(db, level, in0, in1) + Of(stream)
  {
    hide InFile, ClosedInputs;
    forall e ensures e in All(db) <==> e in Rest(db, level, in0, in1) || e in Of(stream) {
      if e in All(db) {
        var p :| At(db, p, e);
        if !Untouched(db, level, in0, in1, p, e) {
          InputEntryInStream(db, level, in0, in1, stream, p, e);
        }
      }
      if e in Rest(db, level, in0, in1) {
        var p :| Untouched(db, level, in0, in1, p, e);
        assert At(db, p, e);
      }
      if e in Of(stream) {
        var f :| f in in0 + in1 && InFile(db, f, e);
        InFileAt(db, if f in in0 then level else level + 1, f, e);
      }
    }
  }

  lemma InputEntryInStream(db: Db, level: nat, in0: FileList, in1: FileList, stream: Run, p: Place, e: Entry)
    requires level + 1 < NUM_LEVELS && IsStream(db, in0, in1, stream)
    requires At(db, p, e) && !Untouched(db, level, in0, in1, p, e)
    ensures e in stream
  {
    var l := if p == InLevel(level + 1) then level + 1 else level;
    var f :| f in db.version[l] && InFile(db, f, e) && p == PlaceOf(l, f);
    assert f in in0 + in1;
  }

  lemma CompactedAll(db: Db, db': Db, level: nat, in0: FileList, in1: FileList, out: iset<Entry>)
    requires level + 1 < NUM_LEVELS && Compacted(db, db', level, in0, in1, out)
    ensures All(db') == Rest(db, level, in0, in1) + out
  {
    forall e ensures e in All(db') <==> e in Rest(db, level, in0, in1) || e in out {
      if e in All(db') { var p :| At(db', p, e); }
      if e in Rest(db, level, in0, in1) {
        var p :| Untouched(db, level, in0, in1, p, e);
        assert At(db', p, e);
      }
      if e in out { assert At(db', InLevel(level + 1), e); }
    }
  }

  /** An entry left behind at level+1 is newer than every input entry for its user key. */
  lemma LeftAtNextLevel(db: Db, level: nat, in0: FileList, in1: FileList, g: FileMeta, o: Entry, f: FileMeta, e: Entry)
    requires TablesOk(db) && UniqueSeqs(All(db)) && ValidPick(db.version, level, in0, in1)
    requires DisjointFiles(db.version[level + 1]) && BoundaryClear(db.version[level + 1], in1)
    requires g in db.version[level + 1] && g !in in1 && InFile(db, g, o)
    requires f in in0 + in1 && InFile(db, f, e) && e.key.user == o.key.user
    ensures o.key.sequence > e.key.sequence
  {
    hide DisjointFiles, Contents;
    assert FileOk(db, f) && FileOk(db, g);
    RunEntryBounds(Contents(db, f), e);
    RunEntryBounds(Contents(db, g), o);
    assert !Overlaps(g, Some(LoUser(in0)), Some(HiUser(in0)));
    if f in in1 {
      DisjointMeansApart(db.version[level + 1], f, g);
      InFileAt(db, level + 1, f, e);
      InFileAt(db, level + 1, g, o);
      assert e in All(db) && o in All(db);
    }
  }

  /** Inputs with a clear boundary come before no file left behind that starts with one of their keys. */
  lemma BoundaryMeansClear(db: Db, level: nat, in0: FileList, f: FileMeta, e: Entry)
    requires 0 < level < NUM_LEVELS && DisjointFiles(db.version[level]) && TablesOk(db)
    requires BoundaryClear(db.version[level], in0) && f in in0 && f in db.version[level] && InFile(db, f, e)
    ensures ClearOf(db.version[level], in0, e)
  {
    assert FileOk(db, f);
    forall g | g in db.version[level] && g !in in0 && e.key.user == g.smallest.user
      ensures !Less(e.key, g.smallest)
    {
      assert FileOk(db, g);
      RunEntryBounds(Contents(db, f), e);
      FileRangeOk(db, g);
      DisjointMeansApart(db.version[level], f, g);
    }
  }

  /** At level 0 the inputs share no user key with the files left behind. */
  lemma ClosedMeansClear(db: Db, in0: FileList, f: FileMeta, e: Entry)
    requires TablesOk(db) && in0 != [] && ClosedInputs(db.version[0], in0)
    requires f in in0 && f in db.version[0] && InFile(db, f, e)
    ensures ClearOf(db.version[0], in0, e)
  {
    assert FileOk(db, f);
    RunEntryBounds(Contents(db, f), e);
    forall g | g in db.version[0] && g !in in0 ensures e.key.user != g.smallest.user {
      assert FileOk(db, g);
      FileRangeOk(db, g);
      assert !Overlaps(g, Some(LoUser(in0)), Some(HiUser(in0)));
    }
  }

  lemma InputIsClear(db: Db, level: nat, in0: FileList, in1: FileList, f: FileMeta, e: Entry)
    requires InputsOk(db, level, in0, in1) && BoundariesClear(db.version, level, in0, in1)
    requires f in in0 && InFile(db, f, e)
    ensures ClearOf(db.version[level], in0, e)
  {
    if level > 0 {
      BoundaryMeansClear(db, level, in0, f, e);
    } else {
      ClosedMeansClear(db, in0, f, e);
    }
  }

  /** What was at level+1 is older than what is left behind above it. */
  lemma NextLevelIsClear(db: Db, level: nat, in0: FileList, f: FileMeta, e: Entry)
    requires level + 1 < NUM_LEVELS && TablesOk(db) && AgeOrdered(db)
    requires f in db.version[level + 1] && InFile(db, f, e)
    ensures ClearOf(db.version[level], in0, e)
  {
    InFileAt(db, level + 1, f, e);
    forall g | g in db.version[level] && g !in in0 && e.key.user == g.smallest.user
      ensures !Less(e.key, g.smallest)
    {
      assert FileOk(db, g);
      var first, p := Contents(db, g)[0], PlaceOf(level, g);
      assert InFile(db, g, first);
      InFileAt(db, level, g, first);
      assert At(db, p, first) && Newer(p, InLevel(level + 1));
    }
  }

  lemma BoundariesMeanOutputsClear(db: Db, level: nat, in0: FileList, in1: FileList, out: iset<Entry>)
    requires InputsOk(db, level, in0, in1) && AgeOrdered(db) && BoundariesClear(db.version, level, in0, in1)
    requires FromInputs(db, in0, in1, out)
    ensures OutputsClear(db.version, level, in0, out)
  {
    forall e | e in out ensures ClearOf(db.version[level], in0, e) {
      var f :| f in in0 + in1 && InFile(db, f, e);
      if f in in0 {
        InputIsClear(db, level, in0, in1, f, e);
      } else {
        NextLevelIsClear(db, level, in0, f, e);
      }
    }
  }

  lemma NeighbourIsNewer(db: Db, level: nat, in0: FileList, in1: FileList, p: Place, o: Entry, f: FileMeta, e: Entry)
    requires InputsOk(db, level, in0, in1) && AgeOrdered(db) && BoundariesClear(db.version, level, in0, in1)
    requires Untouched(db, level, in0, in1, p, o) && (p == InLevel(level + 1) || InputPlace(level, p))
    requires f in in0 + in1 && InFile(db, f, e) && e.key.user == o.key.user
    ensures o.key.sequence > e.key.sequence
  {
    if p == InLevel(level + 1) {
      var g :| g in db.version[level + 1] && g !in in1 && InFile(db, g, o);
      LeftAtNextLevel(db, level, in0, in1, g, o, f, e);
    } else if f in in0 {
      InputIsClear(db, level, in0, in1, f, e);
      StayingIsNewer(db, level, in0, in1, p, o, f, e);
    } else {
      InFileAt(db, level + 1, f, e);
      assert At(db, p, o) && Newer(p, InLevel(level + 1));
    }
  }

  lemma RestIsLayered(db: Db, level: nat, in0: FileList, in1: FileList, p: Place, o: Entry, f: FileMeta, e: Entry)
    requires InputsOk(db, level, in0, in1) && AgeOrdered(db) && BoundariesClear(db.version, level, in0, in1)
    requires Untouched(db, level, in0, in1, p, o)
    requires f in in0 + in1 && InFile(db, f, e) && e.key.user == o.key.user
    ensures if p.InLevel? && p.level >= level + 2 then o.key.sequence < e.key.sequence
            else o.key.sequence > e.key.sequence
  {
    if p == InLevel(level + 1) || InputPlace(level, p) {
      NeighbourIsNewer(db, level, in0, in1, p, o, f, e);
    } else {
      var q := if f in in0 then PlaceOf(level, f) else InLevel(level + 1);
      InFileAt(db, if f in in0 then level else level + 1, f, e);
      assert At(db, q, e) && At(db, p, o) && (Newer(p, q) || Newer(q, p));
    }
  }

  lemma MergeLayered(db: Db, level: nat, in0: FileList, in1: FileList, stream: Run)
    requires Inv(db) && ValidPick(db.version, level, in0, in1) && BoundariesClear(db.version, level, in0, in1)
    requires IsStream(db, in0, in1, stream)
    ensures Layered(stream, Rest(db, level, in0, in1), db.version, level)
  {
    hide BoundariesClear;
    AllUnique(db);
    assert InputsOk(db, level, in0, in1);
    forall o | o in Rest(db, level, in0, in1)
      ensures
        (forall e :: e in stream && e.key.user == o.key.user ==> o.key.sequence > e.key.sequence) ||
        (!BaseLevel(db.version, level, o.key.user) &&
         forall e :: e in stream && e.key.user == o.key.user ==> o.key.sequence < e.key.sequence)
    {
      var p :| Untouched(db, level, in0, in1, p, o);
      forall e | e in stream && e.key.user == o.key.user
        ensures if p.InLevel? && p.level >= level + 2 then o.key.sequence < e.key.sequence
                else o.key.sequence > e.key.sequence
      {
        var f :| f in in0 + in1 && InFile(db, f, e);
        RestIsLayered(db, level, in0, in1, p, o, f, e);
      }
      if p.InLevel? && p.level >= level + 2 {
        DeeperCovers(db, level, p.level, o);
      }
    }
  }

  lemma DeeperCovers(db: Db, level: nat, l: nat, o: Entry)
    requires TablesOk(db) && l >= level + 2 && At(db, InLevel(l), o)
    ensures !BaseLevel(db.version, level, o.key.user)
  {
    var f :| f in db.version[l] && InFile(db, f, o);
    assert FileOk(db, f);
    RunEntryBounds(Contents(db, f), o);
  }

  // ---------- when a merge is invisible ----------

  /** Where a dropped marker answers, whatever else is stored for its key and visible at the
      smallest snapshot is in a file left behind. */
  lemma VisibleIsLeftBehind(db: Db, level: nat, in0: FileList, in1: FileList, stream: Run, i: nat, s: nat,
                            p: Place, o: Entry)
    requires ValidPick(db.version, level, in0, in1) && TablesOk(db) && AgeOrdered(db)
    requires IsStream(db, in0, in1, stream) && i < |stream|
    requires BaseLevel(db.version, level, stream[i].key.user)
    requires IsNewest(All(db), stream[i].key.user, s, stream[i])
    requires Untouched(db, level, in0, in1, p, o) && Matches(o, stream[i].key.user, s)
    ensures o in LeftBehind(db, level, in0, in1)
  {
    if p != InLevel(level + 1) && !InputPlace(level, p) {
      assert stream[i] in stream;
      var f :| f in in0 + in1 && InFile(db, f, stream[i]);
      var l := if f in in0 then level else level + 1;
      InFileAt(db, l, f, stream[i]);
      assert At(db, PlaceOf(l, f), stream[i]) && At(db, p, o) && o in All(db);
      if p.InLevel? && p.level >= level + 2 {
        DeeperCovers(db, level, p.level, o);
      } else {
        assert Newer(p, PlaceOf(l, f));
      }
      assert false;
    }
  }

  lemma LeftBehindIsRest(db: Db, level: nat, in0: FileList, in1: FileList)
    requires level + 1 < NUM_LEVELS
    ensures LeftBehind(db, level, in0, in1) <= Rest(db, level, in0, in1)
  {
    forall e | e in LeftBehind(db, level, in0, in1) ensures e in Rest(db, level, in0, in1) {
      var f :| ((f in db.version[level] && f !in in0) || (f in db.version[level + 1] && f !in in1)) && InFile(db, f, e);
      var l := if f in db.version[level] && f !in in0 then level else level + 1;
      assert PlaceOf(l, f) == InLevel(level + 1) || InputPlace(level, PlaceOf(l, f));
      assert Untouched(db, level, in0, in1, PlaceOf(l, f), e);
    }
  }

  lemma RestShowsWhatIsLeft(db: Db, level: nat, in0: FileList, in1: FileList, stream: Run, i: nat, s: nat)
    requires ValidPick(db.version, level, in0, in1) && TablesOk(db) && AgeOrdered(db) && UniquePlaces(db)
    requires IsStream(db, in0, in1, stream) && i < |stream|
    requires BaseLevel(db.version, level, stream[i].key.user)
    requires IsNewest(All(db), stream[i].key.user, s, stream[i])
    ensures Reads(Rest(db, level, in0, in1), stream[i].key.user, s)
      == Reads(LeftBehind(db, level, in0, in1), stream[i].key.user, s)
  {
    var rest, k := Rest(db, level, in0, in1), stream[i].key.user;
    LeftBehindIsRest(db, level, in0, in1);
    forall o | o in rest && Matches(o, k, s) ensures o in LeftBehind(db, level, in0, in1) {
      var p :| Untouched(db, level, in0, in1, p, o);
      VisibleIsLeftBehind(db, level, in0, in1, stream, i, s, p, o);
    }
    SplitAll(db, level, in0, in1, stream);
    AllUnique(db);
    PartUnique(All(db), rest);
    SameMatchesSameRead(rest, LeftBehind(db, level, in0, in1), k, s, s);
  }

  lemma MarkerClearIff(db: Db, level: nat, in0: FileList, in1: FileList, stream: Run, i: nat)
    requires ValidPick(db.version, level, in0, in1) && TablesOk(db) && AgeOrdered(db) && UniquePlaces(db)
    requires IsStream(db, in0, in1, stream) && i < |stream| && SmallestSnapshot(db) < MAX_SEQUENCE
    ensures MarkerClear(db, level, in0, in1, stream, i) <==>
      !Unhides(stream, Rest(db, level, in0, in1), SmallestSnapshot(db), db.version, level, i)
  {
    var s, rest := SmallestSnapshot(db), Rest(db, level, in0, in1);
    SplitAll(db, level, in0, in1, stream);
    AllUnique(db);
    if Drops(stream, i, s, db.version, level) && IsNewest(All(db), stream[i].key.user, s, stream[i]) {
      DroppedFallsThrough(stream, rest, s, db.version, level, i, s);
      RestShowsWhatIsLeft(db, level, in0, in1, stream, i, s);
    }
  }

  /** The drop rules' own condition, in terms of the files left behind. */
  lemma MarkersClearIff(db: Db, level: nat, in0: FileList, in1: FileList, stream: Run)
    requires ValidPick(db.version, level, in0, in1) && TablesOk(db) && AgeOrdered(db) && UniquePlaces(db)
    requires IsStream(db, in0, in1, stream) && SmallestSnapshot(db) < MAX_SEQUENCE
    ensures MarkersClear(db, level, in0, in1, stream) <==> forall i :: 0 <= i < |stream| ==>
      !Unhides(stream, Rest(db, level, in0, in1), SmallestSnapshot(db), db.version, level, i)
  {
    forall i | 0 <= i < |stream|
      ensures MarkerClear(db, level, in0, in1, stream, i) <==>
        !Unhides(stream, Rest(db, level, in0, in1), SmallestSnapshot(db), db.version, level, i)
    {
      MarkerClearIff(db, level, in0, in1, stream, i);
    }
  }

  lemma SmallestBounded(db: Db)
    requires SnapshotsOk(db) && db.lastSequence < MAX_SEQUENCE
    ensures SmallestSnapshot(db) < MAX_SEQUENCE
  {
    if db.snapshots != [] { assert db.snapshots[0] in db.snapshots; }
  }

  lemma KeptFromInputs(db: Db, level: nat, in0: FileList, in1: FileList, stream: Run, e: Entry)
    requires IsStream(db, in0, in1, stream)
    requires e in Kept(stream, |stream|, SmallestSnapshot(db), db.version, level)
    ensures e in stream && exists f :: f in in0 + in1 && InFile(db, f, e)
  {
    KeptMembers(stream, |stream|, SmallestSnapshot(db), db.version, level);
    var i :| 0 <= i < |stream| && stream[i] == e;
    assert stream[i] in stream;
  }

  lemma KeptBounded(db: Db, level: nat, in0: FileList, in1: FileList, stream: Run, e: Entry)
    requires Bounded(db) && ValidPick(db.version, level, in0, in1) && IsStream(db, in0, in1, stream) && e in stream
    ensures e.key.sequence <= MAX_SEQUENCE
  {
    var f :| f in in0 + in1 && InFile(db, f, e);
    InFileAt(db, if f in in0 then level else level + 1, f, e);
  }

  lemma MergeOutputsOk(db: Db, step: Step)
    requires Bounded(db) && step.Merge? && Ready(db, step)
    ensures MergeOutputs(db, After(db, step), step.outs)
    ensures FromInputs(db, step.in0, step.in1, Of(Flatten(step.outs)))
    ensures forall e :: e in Flatten(step.outs) ==> e.key.sequence <= MAX_SEQUENCE
  {
    var Merge(level, in0, in1, stream, outs, sizes) := step;
    KeptSorted(stream, |stream|, SmallestSnapshot(db), db.version, level);
    forall e | e in Flatten(outs)
      ensures exists f :: f in in0 + in1 && InFile(db, f, e)
      ensures e.key.sequence <= MAX_SEQUENCE
    {
      KeptFromInputs(db, level, in0, in1, stream, e);
      KeptBounded(db, level, in0, in1, stream, e);
    }
  }

  /** What a merge does to the files, and that only the age order can break. */
  lemma MergeCompacted(db: Db, step: Step)
    requires Inv(db) && step.Merge? && Ready(db, step)
    ensures Compacted(db, After(db, step), step.level, step.in0, step.in1, Of(Flatten(step.outs)))
    ensures Inv(After(db, step)) <==> AgeOrdered(After(db, step))
  {
    var Merge(level, in0, in1, stream, outs, sizes) := step;
    MergeOutputsOk(db, step);
    MergeCompacts(db, After(db, step), level, in0, in1, outs, sizes);
    CompactedSubset(db, After(db, step), level, in0, in1, Of(Flatten(outs)));
  }

  /** A merge keeps the store's invariant exactly when nothing it writes comes before a file left
      behind at its level that starts with the same user key; and it keeps every read at or above
      the smallest snapshot exactly when, wherever a dropped deletion marker answered, the files
      left behind show nothing for its key. */
  lemma MergeInvisibleIff(db: Db, step: Step)
    requires Inv(db) && step.Merge? && Ready(db, step)
    ensures Inv(After(db, step)) <==> OutputsClear(db.version, step.level, step.in0, Of(Flatten(step.outs)))
    ensures SameReads(All(After(db, step)), All(db), SmallestSnapshot(db)) <==>
      MarkersClear(db, step.level, step.in0, step.in1, step.stream)
  {
    var Merge(level, in0, in1, stream, outs, sizes) := step;
    MergeOutputsOk(db, step);
    MergeCompacted(db, step);
    CompactedAgeIff(db, After(db, step), level, in0, in1, Of(Flatten(outs)));
    CompactedAll(db, After(db, step), level, in0, in1, Of(Flatten(outs)));
    SplitAll(db, level, in0, in1, stream);
    AllUnique(db);
    SmallestBounded(db);
    DropRulesInvisibleIff(stream, Rest(db, level, in0, in1), SmallestSnapshot(db), db.version, level);
    MarkersClearIff(db, level, in0, in1, stream);
  }

  lemma MergeInv(db: Db, step: Step)
    requires Inv(db) && step.Merge? && Enabled(db, step)
    ensures Inv(After(db, step))
    ensures forall k, s: nat :: s >= SmallestSnapshot(db) ==> Reads(All(After(db, step)), k, s) == Reads(All(db), k, s)
  {
    MergeInvisibleIff(db, step);
  }

  /** When no left-behind file starts with the user key an input of its level ends with, a
      compaction is harmless. */
  lemma ClearBoundariesSuffice(db: Db, step: Step)
    requires Inv(db) && Ready(db, step)
    requires match step
             case Move(level, f) => BoundariesClear(db.version, level, [f], [])
             case Merge(level, in0, in1, _, _, _) => BoundariesClear(db.version, level, in0, in1)
             case _ => true
    ensures Enabled(db, step)
  {
    AllUnique(db);
    if step.Move? {
      MoveOutputs(db, step.f);
      BoundariesMeanOutputsClear(db, step.level, [step.f], [], Of(Contents(db, step.f)));
    } else if step.Merge? {
      var Merge(level, in0, in1, stream, outs, sizes) := step;
      MergeOutputsOk(db, step);
      BoundariesMeanOutputsClear(db, level, in0, in1, Of(Flatten(outs)));
      MergeLayered(db, level, in0, in1, stream);
      SmallestBounded(db);
      SplitAll(db, level, in0, in1, stream);
      forall i | 0 <= i < |stream|
        ensures !Unhides(stream, Rest(db, level, in0, in1), SmallestSnapshot(db), db.version, level, i)
      {
        LayeredHidesNothing(stream, Rest(db, level, in0, in1), SmallestSnapshot(db), db.version, level, i);
      }
      MarkersClearIff(db, level, in0, in1, stream);
    }
  }
}
