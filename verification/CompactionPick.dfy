/** Choosing compaction inputs (version_set.cc PickCompaction, CompactRange, SetupOtherInputs). */
module CompactionPick {
  import opened Keys
  import opened Versions

  const TARGET_FILE_SIZE: nat := 2 * 1048576
  const EXPANDED_COMPACTION_BYTE_SIZE_LIMIT: nat := 25 * TARGET_FILE_SIZE

  /** The user-key range that a nonempty set of files covers. */
  function LoUser(files: FileList): (r: UserKey)
    requires files != []
    ensures forall f :: f in files ==> r <= f.smallest.user
    ensures exists f :: f in files && r == f.smallest.user
  {
    if |files| == 1 then files[0].smallest.user
    else
      var rest := LoUser(files[1..]);
      if files[0].smallest.user < rest then files[0].smallest.user else rest
  }

  function HiUser(files: FileList): (r: UserKey)
    requires files != []
    ensures forall f :: f in files ==> f.largest.user <= r
    ensures exists f :: f in files && r == f.largest.user
  {
    if |files| == 1 then files[0].largest.user
    else
      var rest := HiUser(files[1..]);
      if files[0].largest.user > rest then files[0].largest.user else rest
  }

  /** Every level-0 file that overlaps the inputs is an input. */
  ghost predicate ClosedInputs(files: FileList, in0: FileList)
    requires in0 != []
  {
    forall g :: g in files && Overlaps(g, Some(LoUser(in0)), Some(HiUser(in0))) ==> g in in0
  }

  /** The level+1 inputs are exactly the files overlapping the level inputs, and level-0 inputs
      are closed under overlap. */
  ghost predicate ValidPick(v: Version, level: nat, in0: FileList, in1: FileList) {
    level + 1 < NUM_LEVELS && in0 != [] &&
    (forall f :: f in in0 ==> f in v[level]) &&
    (forall g :: g in in1 <==> g in v[level + 1] && Overlaps(g, Some(LoUser(in0)), Some(HiUser(in0)))) &&
    (level == 0 ==> ClosedInputs(v[0], in0))
  }

  method GetRange(inputs: FileList) returns (smallest: InternalKey, largest: InternalKey)
    requires inputs != []
    ensures forall f :: f in inputs ==> !Less(f.smallest, smallest) && !Less(largest, f.largest)
    ensures exists f :: f in inputs && f.smallest == smallest
    ensures exists f :: f in inputs && f.largest == largest
    ensures smallest.user == LoUser(inputs) && largest.user == HiUser(inputs)
  {
    smallest, largest := inputs[0].smallest, inputs[0].largest;
    for i := 1 to |inputs|
      invariant forall f :: f in inputs[..i] ==> !Less(f.smallest, smallest) && !Less(largest, f.largest)
      invariant exists f :: f in inputs[..i] && f.smallest == smallest
      invariant exists f :: f in inputs[..i] && f.largest == largest
    {
      var f := inputs[i];
      assert inputs[..i + 1] == inputs[..i] + [f];
      if Less(f.smallest, smallest) { smallest := f.smallest; }
      if Less(largest, f.largest) { largest := f.largest; }
    }
    assert inputs[..|inputs|] == inputs;
  }

  lemma SelectedIsClosed(level: nat, files: FileList, lo: Option<UserKey>, hi: Option<UserKey>, inputs: FileList)
    requires SelectedInputs(level, files, lo, hi, inputs) && inputs != []
    ensures forall f :: f in inputs ==> f in files
    ensures level == 0 ==> ClosedInputs(files, inputs)
  {
    hide Overlapping;
    if level == 0 {
      var a, b :| LeastClosedRange(files, lo, hi, a, b) && inputs == Overlapping(files, a, b);
      var l, h := LoUser(inputs), HiUser(inputs);
      var f :| f in inputs && l == f.smallest.user;
      var g :| g in inputs && h == g.largest.user;
      assert Within(f, a, b) && Within(g, a, b);
    }
  }

  /** Growing a range grows the selection; if the count does not change, nothing changes. */
  lemma {:induction false} OverlappingGrows(files: FileList, lo: UserKey, hi: UserKey, lo': UserKey, hi': UserKey)
    requires lo' <= lo && hi <= hi'
    ensures |Overlapping(files, Some(lo), Some(hi))| <= |Overlapping(files, Some(lo'), Some(hi'))|
    ensures |Overlapping(files, Some(lo), Some(hi))| == |Overlapping(files, Some(lo'), Some(hi'))| ==>
      Overlapping(files, Some(lo), Some(hi)) == Overlapping(files, Some(lo'), Some(hi'))
  {
    if files == [] {
    } else {
      OverlappingGrows(files[1..], lo, hi, lo', hi');
    }
  }

  lemma HullGrows(files: FileList, more: FileList)
    requires files != [] && more != [] && forall f :: f in files ==> f in more
    ensures LoUser(more) <= LoUser(files) && HiUser(files) <= HiUser(more)
  {
    var l, h := LoUser(files), HiUser(files);
    var f :| f in files && l == f.smallest.user;
    var g :| g in files && h == g.largest.user;
    assert f in more && g in more;
  }

  lemma SelectionCovers(level: nat, files: FileList, in0: FileList, lo: UserKey, hi: UserKey, inputs: FileList)
    requires in0 != [] && (forall f :: f in in0 ==> f in files) && RangesOk(files)
    requires lo <= LoUser(in0) && HiUser(in0) <= hi
    requires SelectedInputs(level, files, Some(lo), Some(hi), inputs)
    ensures forall f :: f in in0 ==> f in inputs
  {
    forall f | f in in0 ensures f in inputs && Overlaps(f, Some(lo), Some(hi)) {
      assert !Less(f.largest, f.smallest);
      if level == 0 {
        var a, b :| LeastClosedRange(files, Some(lo), Some(hi), a, b) && inputs == Overlapping(files, a, b);
      }
    }
  }

  datatype Pick = Pick(level: nat, in0: FileList, in1: FileList, grandparents: FileList, compactPointer: InternalKey)

  /** Whether the level inputs may grow to `expanded`: there are more of them, the compaction stays within
      its size limit, and no further level+1 file comes in. */
  ghost predicate MayGrow(v: Version, level: nat, picked: FileList, in1: FileList, expanded: FileList)
    requires level + 1 < NUM_LEVELS
  {
    |expanded| > |picked| &&
    TotalFileSize(in1) + TotalFileSize(expanded) < EXPANDED_COMPACTION_BYTE_SIZE_LIMIT &&
    |Overlapping(v[level + 1], Some(LoUser(expanded)), Some(HiUser(expanded)))| == |in1|
  }

  /** The level inputs are those picked, or everything in the range of both input levels if that may be. */
  ghost predicate GrownFrom(v: Version, level: nat, picked: FileList, in1: FileList, in0: FileList)
    requires level + 1 < NUM_LEVELS && picked != []
  {
    if in1 == [] then in0 == picked
    else
      exists expanded ::
        SelectedInputs(level, v[level], Some(LoUser(picked + in1)), Some(HiUser(picked + in1)), expanded) &&
        in0 == if MayGrow(v, level, picked, in1, expanded) then expanded else picked
  }

  /** What SetupOtherInputs makes of the files picked. */
  ghost predicate SetUp(v: Version, level: nat, picked: FileList, pick: Pick) {
    level + 1 < NUM_LEVELS && picked != [] && pick.in0 != [] && pick.level == level &&
    pick.in1 == Overlapping(v[level + 1], Some(LoUser(picked)), Some(HiUser(picked))) &&
    GrownFrom(v, level, picked, pick.in1, pick.in0) &&
    (forall g :: g in pick.grandparents <==>
       level + 2 < NUM_LEVELS && g in v[level + 2] &&
       Overlaps(g, Some(LoUser(pick.in0 + pick.in1)), Some(HiUser(pick.in0 + pick.in1)))) &&
    (exists f :: f in pick.in0 && f.largest == pick.compactPointer) &&
    forall f :: f in pick.in0 ==> !Less(pick.compactPointer, f.largest)
  }

  /** The files of a level as the inputs of a compaction. */
  ghost predicate LevelInputs(v: Version, level: nat, in0: FileList)
    requires level < NUM_LEVELS
  {
    in0 != [] && (forall f :: f in in0 ==> f in v[level]) && (level == 0 ==> ClosedInputs(v[0], in0))
  }

  /** Grows the level inputs when that costs no further level+1 file. */
  method GrowInputs(v: Version, level: nat, picked: FileList, in1: FileList, lo: UserKey, hi: UserKey)
    returns (in0: FileList, in1': FileList)
    requires VersionOk(v) && level + 1 < NUM_LEVELS && LevelInputs(v, level, picked) && in1 != []
    requires in1 == Overlapping(v[level + 1], Some(LoUser(picked)), Some(HiUser(picked)))
    requires lo == LoUser(picked + in1) && hi == HiUser(picked + in1)
    ensures LevelInputs(v, level, in0) && (forall f :: f in picked ==> f in in0)
    ensures in1' == in1 == Overlapping(v[level + 1], Some(LoUser(in0)), Some(HiUser(in0)))
    ensures GrownFrom(v, level, picked, in1, in0)
  {
    hide Overlapping, TotalFileSize, LoUser, HiUser, SelectedInputs, ClosedInputs, RangesOk, SortedFiles, DisjointFiles;
    in0, in1' := picked, in1;
    HullGrows(picked, picked + in1);
    var expanded0 := GetOverlappingInputs(level, v[level], Some(lo), Some(hi));
    assert RangesOk(v[level]);
    SelectionCovers(level, v[level], picked, lo, hi, expanded0);
    var inputs1Size := SumFileSizes(in1);
    var expanded0Size := SumFileSizes(expanded0);
    if |expanded0| > |picked| && inputs1Size + expanded0Size < EXPANDED_COMPACTION_BYTE_SIZE_LIMIT {
      SelectedIsClosed(level, v[level], Some(lo), Some(hi), expanded0);
      HullGrows(picked, expanded0);
      var newStart, newLimit := GetRange(expanded0);
      var expanded1 := GetOverlappingInputs(level + 1, v[level + 1], Some(newStart.user), Some(newLimit.user));
      DeepSelection(level + 1, v[level + 1], Some(newStart.user), Some(newLimit.user), expanded1);
      OverlappingGrows(v[level + 1], LoUser(picked), HiUser(picked), newStart.user, newLimit.user);
      if |expanded1| == |in1| {
        in0, in1' := expanded0, expanded1;
      }
    }
  }

  lemma DeepSelection(level: nat, files: FileList, lo: Option<UserKey>, hi: Option<UserKey>, inputs: FileList)
    requires level > 0 && SelectedInputs(level, files, lo, hi, inputs)
    ensures inputs == Overlapping(files, lo, hi)
  {
  }

  /** The files two levels down that the compaction overlaps. */
  method GrandparentsOf(v: Version, level: nat, lo: UserKey, hi: UserKey) returns (grandparents: FileList)
    requires level + 1 < NUM_LEVELS
    ensures forall g :: g in grandparents <==>
      level + 2 < NUM_LEVELS && g in v[level + 2] && Overlaps(g, Some(lo), Some(hi))
  {
    grandparents := [];
    if level + 2 < NUM_LEVELS {
      grandparents := GetOverlappingInputs(level + 2, v[level + 2], Some(lo), Some(hi));
      DeepSelection(level + 2, v[level + 2], Some(lo), Some(hi), grandparents);
    }
  }

  /** Adds the level+1 inputs and grows the level inputs when that costs no further level+1 file. */
  method SetupOtherInputs(v: Version, level: nat, picked: FileList)
    returns (in0: FileList, in1: FileList, grandparents: FileList, compactPointer: InternalKey)
    requires VersionOk(v) && level + 1 < NUM_LEVELS && picked != [] && forall f :: f in picked ==> f in v[level]
    requires level == 0 ==> ClosedInputs(v[0], picked)
    ensures ValidPick(v, level, in0, in1)
    ensures forall f :: f in picked ==> f in in0
    ensures in1 == Overlapping(v[level + 1], Some(LoUser(picked)), Some(HiUser(picked)))
    ensures exists f :: f in in0 && f.largest == compactPointer
    ensures forall f :: f in in0 ==> !Less(compactPointer, f.largest)
    ensures SetUp(v, level, picked, Pick(level, in0, in1, grandparents, compactPointer))
  {
    hide Overlapping, TotalFileSize, LoUser, HiUser, SelectedInputs, ClosedInputs, MayGrow, VersionOk, ValidPick, SetUp;
    in0 := picked;
    var smallest, largest := GetRange(in0);
    in1 := GetOverlappingInputs(level + 1, v[level + 1], Some(smallest.user), Some(largest.user));
    DeepSelection(level + 1, v[level + 1], Some(smallest.user), Some(largest.user), in1);
    var allStart, allLimit := GetRange(in0 + in1);
    if in1 != [] {
      in0, in1 := GrowInputs(v, level, picked, in1, allStart.user, allLimit.user);
      smallest, largest := GetRange(in0);
      allStart, allLimit := GetRange(in0 + in1);
    }
    grandparents := GrandparentsOf(v, level, allStart.user, allLimit.user);
    compactPointer := largest;
    PickIsValid(v, level, in0, in1);
    SetUpOk(v, level, picked, Pick(level, in0, in1, grandparents, compactPointer));
  }

  lemma PickIsValid(v: Version, level: nat, in0: FileList, in1: FileList)
    requires level + 1 < NUM_LEVELS && LevelInputs(v, level, in0)
    requires in1 == Overlapping(v[level + 1], Some(LoUser(in0)), Some(HiUser(in0)))
    ensures ValidPick(v, level, in0, in1)
  {
  }

  lemma SetUpOk(v: Version, level: nat, picked: FileList, pick: Pick)
    requires level + 1 < NUM_LEVELS && picked != [] && pick.in0 != [] && pick.level == level
    requires pick.in1 == Overlapping(v[level + 1], Some(LoUser(picked)), Some(HiUser(picked)))
    requires GrownFrom(v, level, picked, pick.in1, pick.in0)
    requires forall g :: g in pick.grandparents <==>
      level + 2 < NUM_LEVELS && g in v[level + 2] &&
      Overlaps(g, Some(LoUser(pick.in0 + pick.in1)), Some(HiUser(pick.in0 + pick.in1)))
    requires exists f :: f in pick.in0 && f.largest == pick.compactPointer
    requires forall f :: f in pick.in0 ==> !Less(pick.compactPointer, f.largest)
    ensures SetUp(v, level, picked, pick)
  {
  }

  /** The first file that ends after the compaction pointer, or the first of all if there is none. */
  ghost predicate NextFile(files: FileList, compactPointer: Option<InternalKey>, file: FileMeta) {
    exists i :: 0 <= i < |files| && file == files[i] &&
      if compactPointer.Some? && Less(compactPointer.value, files[i].largest)
        then forall j :: 0 <= j < i ==> !Less(compactPointer.value, files[j].largest)
        else
          i == 0 &&
          (compactPointer.Some? ==> forall j :: 0 <= j < |files| ==> !Less(compactPointer.value, files[j].largest))
  }

  /** A level-0 file brings in the files its range, and theirs, overlaps. */
  ghost predicate PickedFor(v: Version, level: nat, file: FileMeta, picked: FileList) {
    if level == 0 then SelectedInputs(0, v[0], Some(file.smallest.user), Some(file.largest.user), picked)
    else picked == [file]
  }

  /** The compaction that begins with one file. */
  ghost predicate BeginsWith(v: Version, level: nat, file: FileMeta, pick: Pick) {
    file in pick.in0 && exists picked :: PickedFor(v, level, file, picked) && SetUp(v, level, picked, pick)
  }

  /** `sizeLevel` is the level whose score reached 1, `seekFile` the file charged with too many
      seeks; the compaction pointer remembers where the last compaction of the level ended. */
  method PickCompaction(v: Version, sizeLevel: Option<nat>, compactPointer: Option<InternalKey>,
                        seekFile: Option<(nat, FileMeta)>)
    returns (pick: Option<Pick>)
    requires VersionOk(v)
    requires sizeLevel.Some? ==> sizeLevel.value + 1 < NUM_LEVELS && v[sizeLevel.value] != []
    requires seekFile.Some? ==> seekFile.value.0 + 1 < NUM_LEVELS && seekFile.value.1 in v[seekFile.value.0]
    ensures pick.None? <==> sizeLevel.None? && seekFile.None?
    ensures pick.Some? ==> ValidPick(v, pick.value.level, pick.value.in0, pick.value.in1)
    ensures sizeLevel.Some? ==>
      exists file :: NextFile(v[sizeLevel.value], compactPointer, file) &&
        BeginsWith(v, sizeLevel.value, file, pick.value)
    ensures sizeLevel.None? && seekFile.Some? ==>
      BeginsWith(v, seekFile.value.0, seekFile.value.1, pick.value)
  {
    hide SetUp, SelectedInputs, ClosedInputs, Overlapping, LoUser, HiUser, ValidPick;
    var level, file;
    if sizeLevel.Some? {
      level := sizeLevel.value;
      var files := v[level];
      var i := 0;
      while i < |files| && !(compactPointer.None? || Less(compactPointer.value, files[i].largest))
        invariant 0 <= i <= |files|
        invariant i > 0 ==> compactPointer.Some?
        invariant forall j :: 0 <= j < i ==> !Less(compactPointer.value, files[j].largest)
      {
        i := i + 1;
      }
      file := if i < |files| then files[i] else files[0];
    } else if seekFile.Some? {
      level, file := seekFile.value.0, seekFile.value.1;
    } else {
      return None;
    }
    var picked := [file];
    assert !Less(file.largest, file.smallest) by { assert RangesOk(v[level]); }
    if level == 0 {
      var smallest, largest := GetRange(picked);
      picked := GetOverlappingInputs(0, v[0], Some(smallest.user), Some(largest.user));
      SelectionCovers(0, v[0], [file], smallest.user, largest.user, picked);
      assert file in [file];
      SelectedIsClosed(0, v[0], Some(smallest.user), Some(largest.user), picked);
    }
    assert file in picked && PickedFor(v, level, file, picked);
    assert sizeLevel.Some? ==> NextFile(v[level], compactPointer, file);
    var in0, in1, grandparents, pointer := SetupOtherInputs(v, level, picked);
    pick := Some(Pick(level, in0, in1, grandparents, pointer));
  }

  /** The first files of the range, up to the one that reaches the target size; all of them at level 0. */
  ghost predicate Batch(level: nat, inputs: FileList, picked: FileList) {
    if level == 0 then picked == inputs
    else
      exists n :: 0 < n <= |inputs| && picked == inputs[..n] &&
        (forall m :: 0 < m < n ==> TotalFileSize(inputs[..m]) < TARGET_FILE_SIZE) &&
        (n < |inputs| ==> TotalFileSize(inputs[..n]) >= TARGET_FILE_SIZE)
  }

  /** Avoids compacting too much at once. */
  method FirstBatch(level: nat, inputs: FileList) returns (picked: FileList)
    requires level > 0 && inputs != []
    ensures Batch(level, inputs, picked) && picked != [] && forall f :: f in picked ==> f in inputs
  {
    var total := 0;
    for i := 0 to |inputs|
      invariant total == TotalFileSize(inputs[..i])
      invariant forall m :: 0 < m <= i ==> TotalFileSize(inputs[..m]) < TARGET_FILE_SIZE
    {
      TotalFileSizeNext(inputs, i);
      total := total + inputs[i].size;
      if total >= TARGET_FILE_SIZE {
        return inputs[..i + 1];
      }
    }
    assert inputs[..|inputs|] == inputs;
    picked := inputs;
  }

  lemma WholeBatch(inputs: FileList)
    ensures Batch(0, inputs, inputs)
  {
  }

  lemma {:induction false} TotalFileSizeNext(files: FileList, i: nat)
    requires i < |files|
    ensures TotalFileSize(files[..i + 1]) == TotalFileSize(files[..i]) + files[i].size
  {
    if i == 0 {
    } else {
      TotalFileSizeNext(files[1..], i - 1);
      assert files[..i + 1][1..] == files[1..][..i] && files[..i][1..] == files[1..][..i - 1];
    }
  }

  /** Manual compaction of the files of `level` overlapping [begin, end], one batch at a time. */
  method CompactRange(v: Version, level: nat, begin: Option<UserKey>, end: Option<UserKey>)
    returns (pick: Option<Pick>)
    requires VersionOk(v) && level + 1 < NUM_LEVELS
    ensures pick.None? <==> forall f :: f in v[level] ==> !Overlaps(f, begin, end)
    ensures pick.Some? ==> pick.value.level == level && ValidPick(v, level, pick.value.in0, pick.value.in1)
    ensures pick.Some? ==>
      exists inputs, picked ::
        SelectedInputs(level, v[level], begin, end, inputs) && Batch(level, inputs, picked) &&
        SetUp(v, level, picked, pick.value)
  {
    hide SetUp, SelectedInputs, Batch, ClosedInputs, Overlapping, LoUser, HiUser, ValidPick;
    var inputs := GetOverlappingInputs(level, v[level], begin, end);
    NothingSelected(level, v[level], begin, end, inputs);
    if inputs == [] {
      return None;
    }
    SelectedIsClosed(level, v[level], begin, end, inputs);
    var picked := inputs;
    if level > 0 {
      picked := FirstBatch(level, inputs);
    } else {
      WholeBatch(inputs);
    }
    var in0, in1, grandparents, pointer := SetupOtherInputs(v, level, picked);
    pick := Some(Pick(level, in0, in1, grandparents, pointer));
  }

  /** Growing the range never turns an empty selection into a nonempty one or back. */
  lemma NothingSelected(level: nat, files: FileList, lo: Option<UserKey>, hi: Option<UserKey>, inputs: FileList)
    requires SelectedInputs(level, files, lo, hi, inputs)
    ensures inputs == [] <==> forall f :: f in files ==> !Overlaps(f, lo, hi)
  {
    if level == 0 {
      var a, b :| LeastClosedRange(files, lo, hi, a, b) && inputs == Overlapping(files, a, b);
      if forall f :: f in files ==> !Overlaps(f, lo, hi) {
        assert ClosedRange(files, lo, hi);
        assert Widens(a, b, lo, hi);
        assert a == lo && b == hi;
        if inputs != [] { assert inputs[0] in inputs; }
      } else {
        var f :| f in files && Overlaps(f, lo, hi);
        assert Overlaps(f, a, b) && f in inputs;
      }
    } else {
      if inputs != [] { assert inputs[0] in inputs; }
      if !(forall f :: f in files ==> !Overlaps(f, lo, hi)) {
        var f :| f in files && Overlaps(f, lo, hi);
        assert f in inputs;
      }
    }
  }
}
