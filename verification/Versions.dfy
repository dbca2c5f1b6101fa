/** Versions: per-level file lists, the edit builder, and the searches over file lists
    (version_set.cc).
  */
module Versions {
  import opened Keys

  const NUM_LEVELS: nat := 7
  const MAX_MEM_COMPACT_LEVEL: nat := 2
  const MAX_GRANDPARENT_OVERLAP_BYTES: nat := 10 * 2 * 1048576

  datatype FileMeta = FileMeta(number: nat, size: nat, smallest: InternalKey, largest: InternalKey)

  type FileList = seq<FileMeta>

  /** One file list per level. */
  type Version = v: seq<FileList> | |v| == NUM_LEVELS witness seq(NUM_LEVELS, _ => [])

  // ---------- order of file lists ----------

  /** The order of `BySmallestKey`: smallest key, ties broken by file number. */
  predicate FileBefore(f: FileMeta, g: FileMeta) {
    Less(f.smallest, g.smallest) || (f.smallest == g.smallest && f.number < g.number)
  }

  ghost predicate SortedFiles(fs: FileList) {
    forall i, j :: 0 <= i < j < |fs| ==> FileBefore(fs[i], fs[j])
  }

  /** Key ranges do not overlap and the list is in key order: the shape of every level above 0. */
  ghost predicate DisjointFiles(fs: FileList) {
    forall i, j :: 0 <= i < j < |fs| ==> Less(fs[i].largest, fs[j].smallest)
  }

  ghost predicate RangesOk(fs: FileList) {
    forall f :: f in fs ==> !Less(f.largest, f.smallest)
  }

  // ---------- FindFile and SomeFileOverlapsRange ----------

  method FindFile(files: FileList, key: InternalKey) returns (r: nat)
    requires RangesOk(files) && DisjointFiles(files)
    ensures r <= |files|
    ensures forall i :: 0 <= i < r ==> Less(files[i].largest, key)
    ensures forall i :: r <= i < |files| ==> !Less(files[i].largest, key)
  {
    var left, right := 0, |files|;
    while left < right
      invariant 0 <= left <= right <= |files|
      invariant forall i :: 0 <= i < left ==> Less(files[i].largest, key)
      invariant forall i :: right <= i < |files| ==> !Less(files[i].largest, key)
    {
      var mid := (left + right) / 2;
      var f := files[mid];
      if Less(f.largest, key) {
        forall i | 0 <= i < mid ensures Less(files[i].largest, key) {
          assert Less(files[i].largest, f.smallest);
        }
        left := mid + 1;
      } else {
        forall i | mid < i < |files| ensures !Less(files[i].largest, key) {
          assert files[i] in files && Less(f.largest, files[i].smallest);
        }
        right := mid;
      }
    }
    r := right;
  }

  /** An absent bound stands for an open end. */
  predicate AfterFile(key: Option<UserKey>, f: FileMeta) {
    key.Some? && key.value > f.largest.user
  }

  predicate BeforeFile(key: Option<UserKey>, f: FileMeta) {
    key.Some? && key.value < f.smallest.user
  }

  predicate Overlaps(f: FileMeta, lo: Option<UserKey>, hi: Option<UserKey>) {
    !AfterFile(lo, f) && !BeforeFile(hi, f)
  }

  method SomeFileOverlapsRange(disjoint: bool, files: FileList, lo: Option<UserKey>, hi: Option<UserKey>)
    returns (found: bool)
    requires RangesOk(files)
    requires disjoint ==> DisjointFiles(files)
    requires forall f :: f in files ==> f.largest.sequence <= MAX_SEQUENCE
    ensures found <==> exists f :: f in files && Overlaps(f, lo, hi)
  {
    if !disjoint {
      for i := 0 to |files|
        invariant forall j :: 0 <= j < i ==> !Overlaps(files[j], lo, hi)
      {
        if !(AfterFile(lo, files[i]) || BeforeFile(hi, files[i])) {
          assert Overlaps(files[i], lo, hi);
          return true;
        }
      }
      return false;
    }
    var index := 0;
    if lo.Some? {
      index := FindFile(files, SeekKey(lo.value, MAX_SEQUENCE));
    }
    forall i | 0 <= i < index ensures !Overlaps(files[i], lo, hi) {
      var l := files[i].largest;
      assert files[i] in files;
      assert Less(l, SeekKey(lo.value, MAX_SEQUENCE));
    }
    if index >= |files| {
      return false;
    }
    found := !BeforeFile(hi, files[index]);
    if found {
      assert Overlaps(files[index], lo, hi);
    } else {
      forall i | index <= i < |files| ensures !Overlaps(files[i], lo, hi) {
        assert files[index] in files;
        assert i > index ==> Less(files[index].largest, files[i].smallest);
      }
    }
  }

  // ---------- GetOverlappingInputs ----------

  function Overlapping(files: FileList, lo: Option<UserKey>, hi: Option<UserKey>): (r: FileList)
    ensures forall f :: f in r <==> f in files && Overlaps(f, lo, hi)
  {
    if files == [] then []
    else if Overlaps(files[0], lo, hi) then [files[0]] + Overlapping(files[1..], lo, hi)
    else Overlapping(files[1..], lo, hi)
  }

  lemma OverlappingSnoc(files: FileList, i: nat, lo: Option<UserKey>, hi: Option<UserKey>)
    requires i < |files|
    ensures Overlapping(files[..i + 1], lo, hi)
      == Overlapping(files[..i], lo, hi) + if Overlaps(files[i], lo, hi) then [files[i]] else []
  {
    hide Overlaps;
    if i > 0 {
      OverlappingSnoc(files[1..], i - 1, lo, hi);
      assert files[..i + 1][1..] == files[1..][..i] && files[..i][1..] == files[1..][..i - 1];
    } else {
      assert files[..1] == [files[0]];
    }
  }

  ghost predicate Within(f: FileMeta, lo: Option<UserKey>, hi: Option<UserKey>) {
    (lo.Some? ==> lo.value <= f.smallest.user) && (hi.Some? ==> f.largest.user <= hi.value)
  }

  /** [lo', hi'] contains [lo, hi], with the same open ends. */
  ghost predicate Widens(lo: Option<UserKey>, hi: Option<UserKey>, lo': Option<UserKey>, hi': Option<UserKey>) {
    lo.Some? == lo'.Some? && hi.Some? == hi'.Some? &&
    (lo.Some? ==> lo'.value <= lo.value) && (hi.Some? ==> hi.value <= hi'.value)
  }

  ghost predicate ClosedRange(files: FileList, lo: Option<UserKey>, hi: Option<UserKey>) {
    forall f :: f in files && Overlaps(f, lo, hi) ==> Within(f, lo, hi)
  }

  /** The least range that contains [lo, hi] and every file overlapping it. */
  ghost predicate LeastClosedRange(files: FileList, lo: Option<UserKey>, hi: Option<UserKey>,
                                   lo': Option<UserKey>, hi': Option<UserKey>) {
    Widens(lo, hi, lo', hi') && ClosedRange(files, lo', hi') &&
    forall a, b :: Widens(lo, hi, a, b) && ClosedRange(files, a, b) ==> Widens(lo', hi', a, b)
  }

  /** Which files a search of `level` for [lo, hi] selects, in list order. */
  ghost predicate SelectedInputs(level: nat, files: FileList, lo: Option<UserKey>, hi: Option<UserKey>,
                                 inputs: FileList) {
    if level == 0 then
      exists a, b :: LeastClosedRange(files, lo, hi, a, b) && inputs == Overlapping(files, a, b)
    else
      inputs == Overlapping(files, lo, hi)
  }

  /** Files that reach outside the bounds: what a restart of the level-0 loop uses up. */
  ghost function Outside(files: FileList, lo: Option<UserKey>, hi: Option<UserKey>): nat {
    if files == [] then 0 else
    (if lo.Some? && files[0].smallest.user < lo.value then 1 else 0) +
    (if hi.Some? && files[0].largest.user > hi.value then 1 else 0) +
    Outside(files[1..], lo, hi)
  }

  lemma OutsideShrinks(files: FileList, lo: Option<UserKey>, hi: Option<UserKey>,
                       lo': Option<UserKey>, hi': Option<UserKey>)
    requires Widens(lo, hi, lo', hi')
    ensures Outside(files, lo', hi') <= Outside(files, lo, hi)
  {
  }

  lemma {:induction false} OutsideDrops(files: FileList, lo: Option<UserKey>, hi: Option<UserKey>,
                                        lo': Option<UserKey>, hi': Option<UserKey>, f: FileMeta)
    requires Widens(lo, hi, lo', hi') && f in files
    requires (lo.Some? && lo'.value <= f.smallest.user < lo.value)
          || (hi.Some? && hi.value < f.largest.user <= hi'.value)
    ensures Outside(files, lo', hi') < Outside(files, lo, hi)
  {
    OutsideShrinks(files[1..], lo, hi, lo', hi');
    if f != files[0] {
      OutsideDrops(files[1..], lo, hi, lo', hi', f);
    }
  }

  method GetOverlappingInputs(level: nat, files: FileList, begin: Option<UserKey>, end: Option<UserKey>)
    returns (inputs: FileList)
    ensures SelectedInputs(level, files, begin, end, inputs)
  {
    var userBegin, userEnd := begin, end;
    inputs := [];
    var i := 0;
    while i < |files|
      invariant 0 <= i <= |files|
      invariant inputs == Overlapping(files[..i], userBegin, userEnd)
      invariant Widens(begin, end, userBegin, userEnd)
      invariant level > 0 ==> userBegin == begin && userEnd == end
      invariant level == 0 ==> ClosedRange(files[..i], userBegin, userEnd)
      invariant forall a, b :: Widens(begin, end, a, b) && ClosedRange(files, a, b) ==> Widens(userBegin, userEnd, a, b)
      decreases Outside(files, userBegin, userEnd), |files| - i
    {
      var f := files[i];
      OverlappingSnoc(files, i, userBegin, userEnd);
      i := i + 1;
      if userBegin.Some? && f.largest.user < userBegin.value {
      } else if userEnd.Some? && f.smallest.user > userEnd.value {
      } else {
        inputs := inputs + [f];
        assert Overlaps(f, userBegin, userEnd);
        forall a, b | Widens(begin, end, a, b) && ClosedRange(files, a, b)
          ensures Within(f, a, b)
        {
          assert Widens(userBegin, userEnd, a, b) && Overlaps(f, a, b);
        }
        if level == 0 {
          if userBegin.Some? && f.smallest.user < userBegin.value {
            OutsideDrops(files, userBegin, userEnd, Some(f.smallest.user), userEnd, f);
            userBegin := Some(f.smallest.user);
            inputs := [];
            i := 0;
          } else if userEnd.Some? && f.largest.user > userEnd.value {
            OutsideDrops(files, userBegin, userEnd, userBegin, Some(f.largest.user), f);
            userEnd := Some(f.largest.user);
            inputs := [];
            i := 0;
          }
        }
      }
    }
    assert files[..i] == files;
  }

  // ---------- PickLevelForMemTableOutput ----------

  function TotalFileSize(files: FileList): nat {
    if files == [] then 0 else files[0].size + TotalFileSize(files[1..])
  }

  method SumFileSizes(files: FileList) returns (sum: nat)
    ensures sum == TotalFileSize(files)
  {
    sum := 0;
    for i := 0 to |files|
      invariant sum + TotalFileSize(files[i..]) == TotalFileSize(files)
    {
      sum := sum + files[i].size;
    }
  }

  ghost predicate OverlapInLevel(v: Version, level: nat, lo: UserKey, hi: UserKey)
    requires level < NUM_LEVELS
  {
    exists f :: f in v[level] && Overlaps(f, Some(lo), Some(hi))
  }

  /** The bytes two levels below `level` that overlap [lo, hi]. */
  ghost function GrandparentBytes(v: Version, level: nat, lo: UserKey, hi: UserKey): nat
    requires level + 2 < NUM_LEVELS
  {
    TotalFileSize(Overlapping(v[level + 2], Some(lo), Some(hi)))
  }

  ghost function PickLevelFrom(v: Version, lo: UserKey, hi: UserKey, level: nat): (r: nat)
    requires level <= MAX_MEM_COMPACT_LEVEL
    ensures level <= r <= MAX_MEM_COMPACT_LEVEL
    ensures forall l :: level < l <= r ==> !OverlapInLevel(v, l, lo, hi)
    decreases MAX_MEM_COMPACT_LEVEL - level
  {
    if level == MAX_MEM_COMPACT_LEVEL || OverlapInLevel(v, level + 1, lo, hi)
      || GrandparentBytes(v, level, lo, hi) > MAX_GRANDPARENT_OVERLAP_BYTES
    then level
    else PickLevelFrom(v, lo, hi, level + 1)
  }

  /** The level a flushed memtable with user keys in [lo, hi] goes to: any result above 0
      means that no file at that level or above it overlaps the memtable. */
  ghost function PickLevel(v: Version, lo: UserKey, hi: UserKey): (r: nat)
    ensures r <= MAX_MEM_COMPACT_LEVEL
    ensures r > 0 ==> forall l :: 0 <= l <= r ==> !OverlapInLevel(v, l, lo, hi)
  {
    if OverlapInLevel(v, 0, lo, hi) then 0 else PickLevelFrom(v, lo, hi, 0)
  }

  /** A memtable with user keys in [lo, hi] may go to `level`: nothing there or above overlaps it, and
      no level it passes or reaches has too many overlapping bytes two levels further down. */
  ghost predicate MaySink(v: Version, lo: UserKey, hi: UserKey, level: nat)
    requires level <= MAX_MEM_COMPACT_LEVEL
  {
    (forall l :: 0 <= l <= level ==> !OverlapInLevel(v, l, lo, hi)) &&
    (forall l :: 0 <= l < level ==> GrandparentBytes(v, l, lo, hi) <= MAX_GRANDPARENT_OVERLAP_BYTES)
  }

  lemma {:induction false} PickFromIsDeepest(v: Version, lo: UserKey, hi: UserKey, level: nat)
    requires level <= MAX_MEM_COMPACT_LEVEL && MaySink(v, lo, hi, level)
    ensures var r := PickLevelFrom(v, lo, hi, level);
      MaySink(v, lo, hi, r) && forall l :: r < l <= MAX_MEM_COMPACT_LEVEL ==> !MaySink(v, lo, hi, l)
    decreases MAX_MEM_COMPACT_LEVEL - level
  {
    if level < PickLevelFrom(v, lo, hi, level) {
      PickFromIsDeepest(v, lo, hi, level + 1);
    }
  }

  /** The level picked is the deepest one the memtable may go to, or level 0 if there is none. */
  lemma PickLevelIsDeepest(v: Version, lo: UserKey, hi: UserKey)
    ensures PickLevel(v, lo, hi) > 0 ==> MaySink(v, lo, hi, PickLevel(v, lo, hi))
    ensures forall l :: PickLevel(v, lo, hi) < l <= MAX_MEM_COMPACT_LEVEL ==> !MaySink(v, lo, hi, l)
  {
    if !OverlapInLevel(v, 0, lo, hi) {
      PickFromIsDeepest(v, lo, hi, 0);
    }
  }

  /** What every installed version satisfies. */
  ghost predicate VersionOk(v: Version) {
    (forall l :: 0 <= l < NUM_LEVELS ==> RangesOk(v[l]) && SortedFiles(v[l])) &&
    (forall l :: 1 <= l < NUM_LEVELS ==> DisjointFiles(v[l])) &&
    (forall l, f :: 0 <= l < NUM_LEVELS && f in v[l] ==> f.largest.sequence <= MAX_SEQUENCE)
  }

  method PickLevelForMemTableOutput(v: Version, lo: UserKey, hi: UserKey) returns (level: nat)
    requires VersionOk(v)
    ensures level == PickLevel(v, lo, hi) <= MAX_MEM_COMPACT_LEVEL
    ensures level > 0 ==> MaySink(v, lo, hi, level)
    ensures forall l :: level < l <= MAX_MEM_COMPACT_LEVEL ==> !MaySink(v, lo, hi, l)
  {
    PickLevelIsDeepest(v, lo, hi);
    level := 0;
    var overlap := SomeFileOverlapsRange(false, v[0], Some(lo), Some(hi));
    if !overlap {
      while level < MAX_MEM_COMPACT_LEVEL
        invariant level <= MAX_MEM_COMPACT_LEVEL
        invariant PickLevel(v, lo, hi) == PickLevelFrom(v, lo, hi, level)
      {
        overlap := SomeFileOverlapsRange(true, v[level + 1], Some(lo), Some(hi));
        if overlap {
          break;
        }
        if level + 2 < NUM_LEVELS {
          var overlaps := GetOverlappingInputs(level + 2, v[level + 2], Some(lo), Some(hi));
          var sum := SumFileSizes(overlaps);
          if sum > MAX_GRANDPARENT_OVERLAP_BYTES {
            break;
          }
        }
        level := level + 1;
      }
    }
  }

  // ---------- the edit builder ----------

  /** The file part of a version edit: deleted (level, number) pairs, added (level, file) pairs. */
  datatype FileEdit = FileEdit(deleted: set<(nat, nat)>, added: seq<(nat, FileMeta)>)

  datatype LevelState = LevelState(deleted: set<nat>, added: FileList)

  type BuilderState = b: seq<LevelState> | |b| == NUM_LEVELS witness EmptyBuilder()

  const EMPTY_LEVEL_STATE := LevelState({}, [])

  function EmptyBuilder(): seq<LevelState> {
    [EMPTY_LEVEL_STATE, EMPTY_LEVEL_STATE, EMPTY_LEVEL_STATE, EMPTY_LEVEL_STATE,
     EMPTY_LEVEL_STATE, EMPTY_LEVEL_STATE, EMPTY_LEVEL_STATE]
  }

  /** Insertion into an ordered set: nothing happens if an equivalent file is present. */
  function InsertFile(fs: FileList, f: FileMeta): FileList {
    if fs == [] then [f]
    else if FileBefore(f, fs[0]) then [f] + fs
    else if FileBefore(fs[0], f) then [fs[0]] + InsertFile(fs[1..], f)
    else fs
  }

  function AddFile(s: LevelState, f: FileMeta): LevelState {
    LevelState(s.deleted - {f.number}, InsertFile(s.added, f))
  }

  function AddFiles(s: LevelState, level: nat, added: seq<(nat, FileMeta)>): LevelState {
    if added == [] then s
    else
      var before := AddFiles(s, level, added[..|added| - 1]);
      var last := added[|added| - 1];
      if last.0 == level then AddFile(before, last.1) else before
  }

  function DeletedAt(e: FileEdit, level: nat): set<nat> {
    set p: (nat, nat) | p in e.deleted && p.0 == level :: p.1
  }

  function ApplyToLevel(s: LevelState, e: FileEdit, level: nat): LevelState {
    AddFiles(LevelState(s.deleted + DeletedAt(e, level), s.added), level, e.added)
  }

  function ApplyEdit(b: BuilderState, e: FileEdit): BuilderState {
    seq(NUM_LEVELS, l requires 0 <= l < NUM_LEVELS => ApplyToLevel(b[l], e, l))
  }

  /** Merge of the base list with the added files, base files first on ties. */
  function MergeFiles(base: FileList, added: FileList): FileList
    decreases |base| + |added|
  {
    if added == [] then base
    else if base != [] && !FileBefore(added[0], base[0]) then [base[0]] + MergeFiles(base[1..], added)
    else [added[0]] + MergeFiles(base, added[1..])
  }

  function DropDeleted(fs: FileList, deleted: set<nat>): (r: FileList)
    ensures forall f :: f in r <==> f in fs && f.number !in deleted
  {
    if fs == [] then []
    else (if fs[0].number in deleted then [] else [fs[0]]) + DropDeleted(fs[1..], deleted)
  }

  function SaveLevel(base: FileList, s: LevelState): FileList {
    DropDeleted(MergeFiles(base, s.added), s.deleted)
  }

  function SaveVersion(base: Version, b: BuilderState): Version {
    seq(NUM_LEVELS, l requires 0 <= l < NUM_LEVELS => SaveLevel(base[l], b[l]))
  }

  /** The version that installing one edit on top of `base` produces. */
  function Install(base: Version, e: FileEdit): Version {
    SaveVersion(base, ApplyEdit(EmptyBuilder(), e))
  }

  lemma SortedCons(f: FileMeta, fs: FileList)
    requires SortedFiles(fs) && forall g :: g in fs ==> FileBefore(f, g)
    ensures SortedFiles([f] + fs)
  {
  }

  lemma SortedHead(fs: FileList)
    requires SortedFiles(fs) && fs != []
    ensures SortedFiles(fs[1..]) && fs == [fs[0]] + fs[1..]
    ensures forall g :: g in fs[1..] ==> FileBefore(fs[0], g)
  {
  }

  lemma {:induction false} InsertFileMembers(fs: FileList, f: FileMeta)
    requires SortedFiles(fs)
    ensures SortedFiles(InsertFile(fs, f))
    ensures forall g :: g in InsertFile(fs, f) ==> g in fs || g == f
    ensures forall g :: g in fs ==> g in InsertFile(fs, f)
    ensures (forall g :: g in fs ==> g.number != f.number) ==> f in InsertFile(fs, f)
  {
    if fs == [] {
    } else {
      SortedHead(fs);
      if FileBefore(f, fs[0]) {
        SortedCons(f, fs);
      } else if FileBefore(fs[0], f) {
        InsertFileMembers(fs[1..], f);
        SortedCons(fs[0], InsertFile(fs[1..], f));
      }
    }
  }

  lemma MergeFilesMembers(base: FileList, added: FileList)
    ensures forall g :: g in MergeFiles(base, added) <==> g in base || g in added
    decreases |base| + |added|
  {
    if added != [] && base != [] && !FileBefore(added[0], base[0]) {
      MergeFilesMembers(base[1..], added);
      assert base == [base[0]] + base[1..];
    } else if added != [] {
      MergeFilesMembers(base, added[1..]);
      assert added == [added[0]] + added[1..];
    }
  }

  lemma {:induction false} MergeFilesSorted(base: FileList, added: FileList)
    requires SortedFiles(base) && SortedFiles(added)
    requires forall f, g :: f in base && g in added ==> f.number != g.number
    ensures SortedFiles(MergeFiles(base, added))
    decreases |base| + |added|
  {
    if base != [] {
      SortedHead(base);
    }
    if added != [] {
      SortedHead(added);
      if base != [] && !FileBefore(added[0], base[0]) {
        assert base[0] in base && added[0] in added;
        MergeFilesSorted(base[1..], added);
        MergeFilesMembers(base[1..], added);
        SortedCons(base[0], MergeFiles(base[1..], added));
      } else {
        MergeFilesSorted(base, added[1..]);
        MergeFilesMembers(base, added[1..]);
        SortedCons(added[0], MergeFiles(base, added[1..]));
      }
    }
  }

  lemma DropDeletedSorted(fs: FileList, deleted: set<nat>)
    requires SortedFiles(fs)
    ensures SortedFiles(DropDeleted(fs, deleted))
  {
    if fs == [] {
    } else {
      DropDeletedSorted(fs[1..], deleted);
    }
  }

  /** An edit that deletes and re-adds no number and adds only numbers new to the level. */
  ghost predicate FreshEdit(base: FileList, e: FileEdit, level: nat) {
    (forall i, j :: 0 <= i < j < |e.added| && e.added[i].0 == level && e.added[j].0 == level ==>
      e.added[i].1.number != e.added[j].1.number) &&
    (forall i :: 0 <= i < |e.added| && e.added[i].0 == level ==>
      (level, e.added[i].1.number) !in e.deleted &&
      forall f :: f in base ==> f.number != e.added[i].1.number)
  }

  lemma {:induction false} AddFilesMembers(s: LevelState, level: nat, added: seq<(nat, FileMeta)>)
    requires SortedFiles(s.added) && s.added == []
    requires forall i, j :: 0 <= i < j < |added| && added[i].0 == level && added[j].0 == level ==>
      added[i].1.number != added[j].1.number
    requires forall i :: 0 <= i < |added| && added[i].0 == level ==> added[i].1.number !in s.deleted
    ensures AddFiles(s, level, added).deleted == s.deleted
    ensures SortedFiles(AddFiles(s, level, added).added)
    ensures forall f :: f in AddFiles(s, level, added).added <==> (level, f) in added
    decreases |added|
  {
    if added == [] {
    } else {
      var rest, last := added[..|added| - 1], added[|added| - 1];
      AddFilesMembers(s, level, rest);
      assert added == rest + [last];
      if last.0 == level {
        InsertFileMembers(AddFiles(s, level, rest).added, last.1);
      }
    }
  }

  /** Installing an edit gives exactly the surviving base files and the added files, in order. */
  lemma SaveLevelMembers(base: FileList, e: FileEdit, level: nat)
    requires SortedFiles(base) && FreshEdit(base, e, level)
    ensures var r := SaveLevel(base, ApplyToLevel(EMPTY_LEVEL_STATE, e, level));
      SortedFiles(r) &&
      forall f :: f in r <==> (f in base && (level, f.number) !in e.deleted) || (level, f) in e.added
  {
    var s := LevelState(EMPTY_LEVEL_STATE.deleted + DeletedAt(e, level), []);
    assert forall n :: n in s.deleted <==> (level, n) in e.deleted;
    AddFilesMembers(s, level, e.added);
    var t := AddFiles(s, level, e.added);
    MergeFilesMembers(base, t.added);
    MergeFilesSorted(base, t.added);
    DropDeletedSorted(MergeFiles(base, t.added), t.deleted);
  }
}
