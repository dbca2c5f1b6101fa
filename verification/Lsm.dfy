/** The layered store as a whole: memtables, leveled table files and the snapshot list, the
    invariant that keeps entries for one user key ordered by age across the layers, and the
    early-exit lookup (db_impl.cc Get, version_set.cc Version::Get, memtable.cc Get).
  */
module Lsm {
  import opened Keys
  import opened Versions
  import opened CompactionWork

  type Run = seq<Entry>

  datatype Db = Db(
    mem: Run,
    imm: Option<Run>,
    version: Version,
    tables: map<nat, Run>,
    lastSequence: nat,
    nextFile: nat,
    snapshots: seq<nat>)

  /** Where an entry is stored.  Level-0 files are separate places, deeper levels one place each. */
  datatype Place = InMem | InImm | InL0(number: nat) | InLevel(level: nat)

  predicate Newer(p: Place, q: Place) {
    match p
    case InMem => !q.InMem?
    case InImm => q.InL0? || q.InLevel?
    case InL0(n) => q.InLevel? || (q.InL0? && n > q.number)
    case InLevel(l) => q.InLevel? && l < q.level
  }

  /** The contents of a table file. */
  function Contents(db: Db, f: FileMeta): Run {
    if f.number in db.tables then db.tables[f.number] else []
  }

  predicate InFile(db: Db, f: FileMeta, e: Entry) {
    e in Contents(db, f)
  }

  ghost predicate At(db: Db, p: Place, e: Entry) {
    match p
    case InMem => e in db.mem
    case InImm => db.imm.Some? && e in db.imm.value
    case InL0(n) => exists f :: f in db.version[0] && f.number == n && InFile(db, f, e)
    case InLevel(l) => 1 <= l < NUM_LEVELS && exists f :: f in db.version[l] && InFile(db, f, e)
  }

  /** All entries in the store. */
  ghost function All(db: Db): iset<Entry> {
    iset e, p | At(db, p, e) :: e
  }

  // ---------- invariant ----------

  ghost predicate FileOk(db: Db, f: FileMeta) {
    f.number in db.tables && f.number < db.nextFile &&
    var run := Contents(db, f);
    run != [] && Sorted(run) && f.smallest == run[0].key && f.largest == run[|run| - 1].key
  }

  ghost predicate TablesOk(db: Db) {
    forall l, f :: 0 <= l < NUM_LEVELS && f in db.version[l] ==> FileOk(db, f)
  }

  ghost predicate NumbersUnique(db: Db) {
    forall l, f, m, g ::
      0 <= l < NUM_LEVELS && f in db.version[l] && 0 <= m < NUM_LEVELS && g in db.version[m] && f.number == g.number
      ==> l == m && f == g
  }

  ghost predicate FilesOk(db: Db) {
    VersionOk(db.version) && TablesOk(db) && NumbersUnique(db)
  }

  ghost predicate AgeOrdered(db: Db) {
    forall p, q, e, o :: At(db, p, e) && At(db, q, o) && Newer(p, q) && e.key.user == o.key.user ==>
      e.key.sequence > o.key.sequence
  }

  ghost predicate UniquePlaces(db: Db) {
    forall p, e, o :: At(db, p, e) && At(db, p, o) && e.key.user == o.key.user && e.key.sequence == o.key.sequence ==>
      e == o
  }

  ghost predicate Bounded(db: Db) {
    db.lastSequence < MAX_SEQUENCE &&
    forall p, e :: At(db, p, e) ==> e.key.sequence <= db.lastSequence
  }

  /** Snapshots in the order they were taken, none later than `last`. */
  ghost predicate SnapshotList(list: seq<nat>, last: nat) {
    (forall i, j :: 0 <= i < j < |list| ==> list[i] <= list[j]) && forall s :: s in list ==> s <= last
  }

  ghost predicate SnapshotsOk(db: Db) {
    SnapshotList(db.snapshots, db.lastSequence)
  }

  ghost predicate Inv(db: Db) {
    Sorted(db.mem) && (db.imm.Some? ==> Sorted(db.imm.value)) &&
    FilesOk(db) && AgeOrdered(db) && UniquePlaces(db) && Bounded(db) && SnapshotsOk(db)
  }

  lemma AllUnique(db: Db)
    requires AgeOrdered(db) && UniquePlaces(db)
    ensures UniqueSeqs(All(db))
  {
    forall a, b | a in All(db) && b in All(db) && a.key.user == b.key.user && a.key.sequence == b.key.sequence
      ensures a == b
    {
      var p :| At(db, p, a);
      var q :| At(db, q, b);
      assert p == q || Newer(p, q) || Newer(q, p);
    }
  }

  /** The entries at one place. */
  ghost function Stored(db: Db, p: Place): iset<Entry> {
    iset e | At(db, p, e)
  }

  /** The first place with a match decides the read. */
  lemma FirstMatchDecides(db: Db, p: Place, k: UserKey, s: nat, e: Entry)
    requires AgeOrdered(db) && UniquePlaces(db)
    requires forall q :: Newer(q, p) ==> NoMatch(Stored(db, q), k, s)
    requires IsNewest(Stored(db, p), k, s, e)
    ensures Reads(All(db), k, s) == Answer(e)
  {
    forall o | o in All(db) && Matches(o, k, s)
      ensures o.key.sequence <= e.key.sequence
    {
      var q :| At(db, q, o);
      assert o in Stored(db, q);
      assert p == q || Newer(p, q) || Newer(q, p);
    }
    assert At(db, p, e) && e in All(db);
    AllUnique(db);
    ReadsNewest(All(db), k, s, e);
  }

  // ---------- lookup ----------

  lemma RunEntryBounds(run: Run, e: Entry)
    requires Sorted(run) && e in run
    ensures !Less(e.key, run[0].key) && !Less(run[|run| - 1].key, e.key)
  {
    var i :| 0 <= i < |run| && run[i] == e;
    assert i > 0 ==> Less(run[0].key, run[i].key);
    assert i < |run| - 1 ==> Less(run[i].key, run[|run| - 1].key);
  }

  /** What binary search establishes about the file it selects. */
  ghost predicate Selected(files: FileList, index: nat, target: InternalKey) {
    index <= |files| &&
    (forall i :: 0 <= i < index ==> Less(files[i].largest, target)) &&
    (index < |files| ==> !Less(files[index].largest, target))
  }

  lemma MatchIsInSelected(db: Db, files: FileList, index: nat, k: UserKey, s: nat, f: FileMeta, o: Entry)
    requires DisjointFiles(files) && Selected(files, index, SeekKey(k, s))
    requires forall g :: g in files ==> FileOk(db, g)
    requires f in files && InFile(db, f, o) && Matches(o, k, s)
    ensures index < |files|
    ensures Lookup(Contents(db, files[index]), k, s).Some?
    ensures o.key.sequence <= Lookup(Contents(db, files[index]), k, s).value.key.sequence
  {
    var i :| 0 <= i < |files| && files[i] == f;
    RunEntryBounds(Contents(db, f), o);
    assert index <= i;
    var g := files[index];
    assert g in files && FileOk(db, g);
    var run := Contents(db, g);
    var j := SeekIndex(run, SeekKey(k, s));
    if index < i {
      assert Less(g.largest, f.smallest);
      RunEntryBounds(run, run[j]);
    } else {
      LookupIsNewest(run, k, s);
    }
  }

  /** At a deeper level, the file that binary search selects holds the level's answer. */
  lemma LevelLookup(db: Db, level: nat, index: nat, k: UserKey, s: nat)
    requires 1 <= level < NUM_LEVELS && DisjointFiles(db.version[level])
    requires Selected(db.version[level], index, SeekKey(k, s))
    requires forall f :: f in db.version[level] ==> FileOk(db, f)
    ensures index == |db.version[level]| ==> NoMatch(Stored(db, InLevel(level)), k, s)
    ensures index < |db.version[level]| ==>
      var found := Lookup(Contents(db, db.version[level][index]), k, s);
      (found.None? ==> NoMatch(Stored(db, InLevel(level)), k, s)) &&
      (found.Some? ==> IsNewest(Stored(db, InLevel(level)), k, s, found.value))
  {
    var files := db.version[level];
    forall o | o in Stored(db, InLevel(level)) && Matches(o, k, s)
      ensures index < |files| && Lookup(Contents(db, files[index]), k, s).Some?
      ensures o.key.sequence <= Lookup(Contents(db, files[index]), k, s).value.key.sequence
    {
      var f :| f in files && InFile(db, f, o);
      MatchIsInSelected(db, files, index, k, s, f, o);
    }
    if index < |files| {
      var f := files[index];
      assert f in files && FileOk(db, f);
      LookupIsNewest(Contents(db, f), k, s);
      var found := Lookup(Contents(db, f), k, s);
      if found.Some? {
        assert InFile(db, f, found.value) && At(db, InLevel(level), found.value);
      }
    }
  }

  /** std::sort with NewestFirst: descending file numbers. */
  function SortNewestFirst(files: FileList): (r: FileList)
    ensures forall f :: f in r <==> f in files
    ensures forall i, j :: 0 <= i < j < |r| ==> r[i].number >= r[j].number
  {
    if files == [] then [] else InsertNewestFirst(files[0], SortNewestFirst(files[1..]))
  }

  function InsertNewestFirst(f: FileMeta, files: FileList): (r: FileList)
    requires forall i, j :: 0 <= i < j < |files| ==> files[i].number >= files[j].number
    ensures forall g :: g in r <==> g == f || g in files
    ensures forall i, j :: 0 <= i < j < |r| ==> r[i].number >= r[j].number
  {
    if files == [] || f.number >= files[0].number then [f] + files
    else
      var rest := InsertNewestFirst(f, files[1..]);
      assert forall j :: 0 <= j < |rest| ==> rest[j] in rest;
      [files[0]] + rest
  }

  method FilesCovering(files: FileList, k: UserKey) returns (tmp: FileList)
    ensures forall f :: f in tmp <==> f in files && Overlaps(f, Some(k), Some(k))
    ensures forall i, j :: 0 <= i < j < |tmp| ==> tmp[i].number >= tmp[j].number
  {
    tmp := [];
    for i := 0 to |files|
      invariant forall f :: f in tmp <==> f in files[..i] && Overlaps(f, Some(k), Some(k))
    {
      if k >= files[i].smallest.user && k <= files[i].largest.user {
        tmp := tmp + [files[i]];
      }
    }
    assert files[..|files|] == files;
    tmp := SortNewestFirst(tmp);
  }

  ghost predicate NoMatchInL0(db: Db, k: UserKey, s: nat) {
    forall n :: NoMatch(Stored(db, InL0(n)), k, s)
  }

  /** What the early-exit search comes to: the newest match of the first place that has one. */
  ghost predicate Decides(db: Db, p: Place, k: UserKey, s: nat, e: Entry) {
    (forall q :: Newer(q, p) ==> NoMatch(Stored(db, q), k, s)) && IsNewest(Stored(db, p), k, s, e)
  }

  /** The value `Get` returns, whether or not the places are ordered by age. */
  ghost predicate GetReturns(db: Db, k: UserKey, s: nat, r: Option<Bytes>) {
    (NoMatch(All(db), k, s) && r == None) || exists p, e :: Decides(db, p, k, s, e) && r == Answer(e)
  }

  /** Only one value can be returned when entries at the deciding place are told apart. */
  lemma GetReturnsOnly(db: Db, p: Place, k: UserKey, s: nat, e: Entry, r: Option<Bytes>)
    requires Decides(db, p, k, s, e) && UniqueSeqs(Stored(db, p)) && GetReturns(db, k, s, r)
    ensures r == Answer(e)
  {
    assert At(db, p, e) && e in All(db);
    var q, o :| Decides(db, q, k, s, o) && r == Answer(o);
    assert o in Stored(db, q) && (p == q || Newer(p, q) || Newer(q, p));
  }

  /** What a lookup needs of the store: sorted memtables and well-formed files. */
  ghost predicate Readable(db: Db) {
    Sorted(db.mem) && (db.imm.Some? ==> Sorted(db.imm.value)) && FilesOk(db)
  }

  /** Level-0 files that cover the key, newest first. */
  method LevelZeroGet(db: Db, k: UserKey, s: nat) returns (found: Option<Entry>)
    requires Readable(db)
    requires NoMatch(Stored(db, InMem), k, s) && NoMatch(Stored(db, InImm), k, s)
    ensures found.None? ==> NoMatchInL0(db, k, s)
    ensures found.Some? ==> exists n :: Decides(db, InL0(n), k, s, found.value)
  {
    var tmp := FilesCovering(db.version[0], k);
    for i := 0 to |tmp|
      invariant forall j :: 0 <= j < i ==> NoMatch(Stored(db, InL0(tmp[j].number)), k, s)
    {
      var f := tmp[i];
      assert f in tmp && FileOk(db, f);
      found := Lookup(Contents(db, f), k, s);
      LookupIsNewest(Contents(db, f), k, s);
      StoredInL0(db, f);
      if found.Some? {
        forall q | Newer(q, InL0(f.number))
          ensures NoMatch(Stored(db, q), k, s)
        {
          if q.InL0? { OtherL0Files(db, tmp, i, q.number, k, s); }
        }
        assert Decides(db, InL0(f.number), k, s, found.value);
        return;
      }
    }
    found := None;
    forall n ensures NoMatch(Stored(db, InL0(n)), k, s) {
      OtherL0Files(db, tmp, |tmp|, n, k, s);
    }
  }

  /** Search of the table files, newest layer first, stopping at the first entry for the key.
      `None` means that no file holds an entry for `k` visible at `s`. */
  method VersionGet(db: Db, k: UserKey, s: nat) returns (found: Option<Entry>)
    requires Readable(db)
    requires NoMatch(Stored(db, InMem), k, s) && NoMatch(Stored(db, InImm), k, s)
    ensures found.None? ==> NoMatch(All(db), k, s)
    ensures found.Some? ==> exists p :: Decides(db, p, k, s, found.value)
  {
    hide SeekKey, Contents, Matches, NumbersUnique;
    found := LevelZeroGet(db, k, s);
    if found.Some? {
      return;
    }
    for level := 1 to NUM_LEVELS
      invariant forall l :: 1 <= l < level ==> NoMatch(Stored(db, InLevel(l)), k, s)
    {
      var files := db.version[level];
      var index := FindFile(files, SeekKey(k, s));
      LevelLookup(db, level, index, k, s);
      if index < |files| {
        var f := files[index];
        assert f in files && FileOk(db, f);
        if k >= f.smallest.user {
          found := Lookup(Contents(db, f), k, s);
          if found.Some? {
            AboveLevel(db, level, k, s);
            assert Decides(db, InLevel(level), k, s, found.value);
            return;
          }
        } else {
          NotBeforeSmallest(Contents(db, f), k, s);
        }
      }
    }
    found := None;
    forall e | e in All(db) ensures !Matches(e, k, s) {
      var p :| At(db, p, e);
      assert e in Stored(db, p);
    }
  }

  lemma AboveLevel(db: Db, level: nat, k: UserKey, s: nat)
    requires NoMatch(Stored(db, InMem), k, s) && NoMatch(Stored(db, InImm), k, s) && NoMatchInL0(db, k, s)
    requires forall l :: 1 <= l < level ==> NoMatch(Stored(db, InLevel(l)), k, s)
    ensures forall q :: Newer(q, InLevel(level)) ==> NoMatch(Stored(db, q), k, s)
  {
  }

  lemma StoredInL0(db: Db, f: FileMeta)
    requires FilesOk(db) && f in db.version[0]
    ensures Stored(db, InL0(f.number)) == iset e | e in Contents(db, f)
  {
    assert FileOk(db, f);
    assert forall e :: e in Contents(db, f) ==> InFile(db, f, e);
  }

  /** A level-0 file outside the overlapping ones, or with a smaller position in the search, holds no match. */
  lemma OtherL0Files(db: Db, tmp: FileList, i: nat, n: nat, k: UserKey, s: nat)
    requires i <= |tmp| && forall f :: f in db.version[0] ==> FileOk(db, f)
    requires forall f :: f in tmp <==> f in db.version[0] && Overlaps(f, Some(k), Some(k))
    requires forall a, b :: 0 <= a < b < |tmp| ==> tmp[a].number >= tmp[b].number
    requires forall j :: 0 <= j < i ==> NoMatch(Stored(db, InL0(tmp[j].number)), k, s)
    requires i < |tmp| ==> n > tmp[i].number
    ensures NoMatch(Stored(db, InL0(n)), k, s)
  {
    hide Contents;
    forall e | e in Stored(db, InL0(n)) ensures !Matches(e, k, s) {
      var f :| f in db.version[0] && f.number == n && InFile(db, f, e);
      assert FileOk(db, f);
      RunEntryBounds(Contents(db, f), e);
      if Overlaps(f, Some(k), Some(k)) {
        var j :| 0 <= j < |tmp| && tmp[j] == f;
        assert j < i;
      }
    }
  }

  lemma NotBeforeSmallest(run: Run, k: UserKey, s: nat)
    requires Sorted(run) && run != [] && k < run[0].key.user
    ensures Lookup(run, k, s).None?
  {
    var i := SeekIndex(run, SeekKey(k, s));
    if i < |run| {
      RunEntryBounds(run, run[i]);
    }
  }

  /** In a store ordered by age the early-exit search answers like the union of everything stored. */
  lemma GetReadsAll(db: Db, k: UserKey, s: nat, r: Option<Bytes>)
    requires AgeOrdered(db) && UniquePlaces(db) && GetReturns(db, k, s, r)
    ensures r == Reads(All(db), k, s)
  {
    if NoMatch(All(db), k, s) && r == None {
      NoMatchReads(All(db), k, s);
    } else {
      var p, e :| Decides(db, p, k, s, e) && r == Answer(e);
      FirstMatchDecides(db, p, k, s, e);
    }
  }

  method Get(db: Db, k: UserKey, s: nat) returns (r: Option<Bytes>)
    requires Readable(db)
    ensures GetReturns(db, k, s, r)
    ensures Inv(db) ==> r == Reads(All(db), k, s)
  {
    var found := Lookup(db.mem, k, s);
    LookupIsNewest(db.mem, k, s);
    assert Stored(db, InMem) == iset e | e in db.mem;
    if found.Some? {
      assert Decides(db, InMem, k, s, found.value);
    } else if db.imm.Some? {
      found := Lookup(db.imm.value, k, s);
      LookupIsNewest(db.imm.value, k, s);
      assert Stored(db, InImm) == iset e | e in db.imm.value;
      if found.Some? {
        assert Decides(db, InImm, k, s, found.value);
      }
    }
    if found.None? {
      found := VersionGet(db, k, s);
    }
    r := if found.Some? then Answer(found.value) else None;
    if Inv(db) { GetReadsAll(db, k, s, r); }
  }
}
