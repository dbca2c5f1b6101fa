/** Iterating over a whole store (db_impl.cc NewInternalIterator, NewIterator, version_set.cc
    AddIterators): the rows of a DBIter over the merge of all places are exactly the visible map.
  */
module StoreIterators {
  import opened Keys
  import opened Sequences
  import opened Versions
  import opened Lsm
  import opened LsmSteps
  import opened LsmRuns
  import Cursors
  import Merging
  import DbIter

  // ---------- the children ----------

  /** A child of the merge: a sorted run and the place whose entries it holds. */
  datatype Child = Child(place: Place, run: Run)

  function FileRuns(db: Db, files: FileList): seq<Run> {
    seq(|files|, i requires 0 <= i < |files| => Contents(db, files[i]))
  }

  /** Each level-0 file is a child of its own. */
  function LevelZeroChildren(db: Db): seq<Child> {
    var files := db.version[0];
    seq(|files|, i requires 0 <= i < |files| => Child(InL0(files[i].number), Contents(db, files[i])))
  }

  /** Each deeper level that has files is one child, the concatenation of its files. */
  function DeepChildren(db: Db, level: nat): seq<Child>
    requires 1 <= level
    decreases NUM_LEVELS - level
  {
    if level >= NUM_LEVELS then []
    else
      (if db.version[level] == [] then [] else [Child(InLevel(level), Flatten(FileRuns(db, db.version[level])))]) +
      DeepChildren(db, level + 1)
  }

  function MemChildren(db: Db): seq<Child> {
    [Child(InMem, db.mem)] + if db.imm.Some? then [Child(InImm, db.imm.value)] else []
  }

  function Children(db: Db): seq<Child> {
    MemChildren(db) + (LevelZeroChildren(db) + DeepChildren(db, 1))
  }

  function Lists(cs: seq<Child>): seq<Run> {
    seq(|cs|, d requires 0 <= d < |cs| => cs[d].run)
  }

  // ---------- each child holds one place ----------

  ghost predicate ChildOk(db: Db, c: Child) {
    Sorted(c.run) && forall e :: e in c.run <==> At(db, c.place, e)
  }

  /** Every child holds the entries of its place, and no place has two children. */
  ghost predicate ChildrenOk(db: Db, cs: seq<Child>) {
    (forall d :: 0 <= d < |cs| ==> ChildOk(db, cs[d])) &&
    forall i, j :: 0 <= i < j < |cs| ==> cs[i].place != cs[j].place
  }

  lemma JoinChildren(db: Db, a: seq<Child>, b: seq<Child>)
    requires ChildrenOk(db, a) && ChildrenOk(db, b)
    requires forall x, y :: x in a && y in b ==> x.place != y.place
    ensures ChildrenOk(db, a + b)
  {
    forall i, j | 0 <= i < j < |a + b| ensures (a + b)[i].place != (a + b)[j].place {
      if i < |a| <= j {
        assert a[i] in a && b[j - |a|] in b;
      }
    }
  }

  lemma LevelZeroOk(db: Db)
    requires FilesOk(db)
    ensures ChildrenOk(db, LevelZeroChildren(db))
  {
    var cs, files := LevelZeroChildren(db), db.version[0];
    forall i | 0 <= i < |files| ensures ChildOk(db, cs[i]) {
      var f := files[i];
      assert f in files && FileOk(db, f);
      StoredInL0(db, f);
      forall e ensures e in cs[i].run <==> At(db, InL0(f.number), e) {
        assert e in Stored(db, InL0(f.number)) <==> e in Contents(db, f);
      }
    }
    forall i, j | 0 <= i < j < |files| ensures files[i].number != files[j].number {
      assert files[i] in files && files[j] in files && FileBefore(files[i], files[j]);
    }
  }

  ghost predicate InFiles(db: Db, files: FileList, e: Entry) {
    exists f :: f in files && InFile(db, f, e)
  }

  /** Files of a disjoint level concatenate to one sorted run of exactly their entries. */
  lemma {:induction false} ConcatSorted(db: Db, files: FileList)
    requires DisjointFiles(files) && forall f :: f in files ==> FileOk(db, f)
    ensures Sorted(Flatten(FileRuns(db, files)))
    ensures forall e :: e in Flatten(FileRuns(db, files)) <==> InFiles(db, files, e)
    decreases |files|
  {
    if files == [] {
    } else {
      var init, last := files[..|files| - 1], files[|files| - 1];
      assert files == init + [last] && last in files;
      ConcatSorted(db, init);
      ConcatOneMore(db, init, last);
    }
  }

  lemma ConcatOneMore(db: Db, init: FileList, last: FileMeta)
    requires DisjointFiles(init + [last]) && FileOk(db, last) && (forall f :: f in init ==> FileOk(db, f))
    requires Sorted(Flatten(FileRuns(db, init)))
    requires forall e :: e in Flatten(FileRuns(db, init)) <==> InFiles(db, init, e)
    ensures Sorted(Flatten(FileRuns(db, init + [last])))
    ensures forall e :: e in Flatten(FileRuns(db, init + [last])) <==> InFiles(db, init + [last], e)
  {
    var before, run := Flatten(FileRuns(db, init)), Contents(db, last);
    assert FileRuns(db, init + [last]) == FileRuns(db, init) + [run];
    FlattenSnoc(FileRuns(db, init), run);
    forall e, o | e in before && o in run ensures Less(e.key, o.key) {
      BeforeLast(db, init, last, e, o);
    }
    JoinSorted(before, run);
    forall e ensures InFiles(db, init + [last], e) <==> InFiles(db, init, e) || e in run {
      InFilesSnoc(db, init, last, e);
    }
  }

  lemma InFilesSnoc(db: Db, init: FileList, last: FileMeta, e: Entry)
    ensures InFiles(db, init + [last], e) <==> InFiles(db, init, e) || InFile(db, last, e)
  {
    if InFiles(db, init, e) {
      var f :| f in init && InFile(db, f, e);
      assert f in init + [last];
    }
    if InFile(db, last, e) {
      assert last in init + [last];
    }
  }

  lemma BeforeLast(db: Db, init: FileList, last: FileMeta, e: Entry, o: Entry)
    requires DisjointFiles(init + [last]) && FileOk(db, last) && (forall f :: f in init ==> FileOk(db, f))
    requires InFiles(db, init, e) && InFile(db, last, o)
    ensures Less(e.key, o.key)
  {
    var f :| f in init && InFile(db, f, e);
    var i :| 0 <= i < |init| && init[i] == f;
    assert (init + [last])[i] == f && (init + [last])[|init|] == last;
    RunEntryBounds(Contents(db, f), e);
    RunEntryBounds(Contents(db, last), o);
  }

  lemma JoinSorted(a: Run, b: Run)
    requires Sorted(a) && Sorted(b) && forall e, o :: e in a && o in b ==> Less(e.key, o.key)
    ensures Sorted(a + b)
  {
    forall i, j | 0 <= i < j < |a + b| ensures Less((a + b)[i].key, (a + b)[j].key) {
      if i < |a| <= j {
        assert a[i] in a && b[j - |a|] in b;
      }
    }
  }

  lemma {:induction false} DeepOk(db: Db, level: nat)
    requires FilesOk(db) && 1 <= level <= NUM_LEVELS
    ensures ChildrenOk(db, DeepChildren(db, level))
    ensures forall c :: c in DeepChildren(db, level) ==> c.place.InLevel? && level <= c.place.level < NUM_LEVELS
    ensures forall l :: level <= l < NUM_LEVELS && db.version[l] != [] ==>
      exists c :: c in DeepChildren(db, level) && c.place == InLevel(l)
    decreases NUM_LEVELS - level
  {
    if level == NUM_LEVELS {
    } else {
      DeepOk(db, level + 1);
      if db.version[level] != [] {
        LevelChildOk(db, level);
        var child := Child(InLevel(level), Flatten(FileRuns(db, db.version[level])));
        JoinChildren(db, [child], DeepChildren(db, level + 1));
        assert child in DeepChildren(db, level);
      }
    }
  }

  lemma LevelChildOk(db: Db, level: nat)
    requires FilesOk(db) && 1 <= level < NUM_LEVELS
    ensures ChildOk(db, Child(InLevel(level), Flatten(FileRuns(db, db.version[level]))))
  {
    forall f | f in db.version[level] ensures FileOk(db, f) {
    }
    ConcatSorted(db, db.version[level]);
  }

  lemma MemOk(db: Db)
    requires Sorted(db.mem) && (db.imm.Some? ==> Sorted(db.imm.value))
    ensures ChildrenOk(db, MemChildren(db))
    ensures forall c :: c in MemChildren(db) ==> c.place.InMem? || c.place.InImm?
  {
  }

  lemma AllChildrenOk(db: Db)
    requires Readable(db)
    ensures ChildrenOk(db, Children(db))
  {
    hide ChildrenOk, DeepChildren;
    MemOk(db);
    LevelZeroOk(db);
    DeepOk(db, 1);
    JoinChildren(db, LevelZeroChildren(db), DeepChildren(db, 1));
    JoinChildren(db, MemChildren(db), LevelZeroChildren(db) + DeepChildren(db, 1));
  }

  ghost predicate HasPlace(cs: seq<Child>, p: Place) {
    exists c :: c in cs && c.place == p
  }

  lemma HasPlaceJoin(a: seq<Child>, b: seq<Child>, p: Place)
    requires HasPlace(a, p) || HasPlace(b, p)
    ensures HasPlace(a + b, p)
  {
    var c :| (c in a || c in b) && c.place == p;
    assert c in a + b;
  }

  /** Whatever is stored is shown by some child. */
  lemma PlaceHasChild(db: Db, p: Place, e: Entry)
    requires FilesOk(db) && At(db, p, e)
    ensures HasPlace(Children(db), p)
  {
    if p.InMem? {
      assert MemChildren(db)[0] in MemChildren(db);
    } else if p.InImm? {
      assert MemChildren(db)[1] in MemChildren(db);
    } else {
      FileHasChild(db, p, e);
      HasPlaceJoin(LevelZeroChildren(db), DeepChildren(db, 1), p);
    }
    HasPlaceJoin(MemChildren(db), LevelZeroChildren(db) + DeepChildren(db, 1), p);
  }

  lemma FileHasChild(db: Db, p: Place, e: Entry)
    requires FilesOk(db) && At(db, p, e) && (p.InL0? || p.InLevel?)
    ensures HasPlace(LevelZeroChildren(db), p) || HasPlace(DeepChildren(db, 1), p)
  {
    hide FilesOk;
    if p.InL0? {
      var f :| f in db.version[0] && f.number == p.number && InFile(db, f, e);
      var i :| 0 <= i < |db.version[0]| && db.version[0][i] == f;
      assert LevelZeroChildren(db)[i] in LevelZeroChildren(db);
    } else {
      DeepOk(db, 1);
    }
  }

  // ---------- the merge ----------

  ghost function EntriesOf(merged: seq<Merging.Pair>): Run {
    seq(|merged|, i requires 0 <= i < |merged| => merged[i].entry)
  }

  /** Children of different places never hold the same key. */
  lemma NoSharedKey(db: Db, cs: seq<Child>, merged: seq<Merging.Pair>)
    requires AgeOrdered(db) && ChildrenOk(db, cs) && Merging.IsMerge(Lists(cs), merged)
    ensures !Merging.SharedKey(merged)
  {
    forall i, j | 0 <= i < j < |merged| ensures merged[i].entry.key != merged[j].entry.key {
      var x, y := merged[i], merged[j];
      assert x in merged && y in merged && Merging.Before(x, y);
      assert Merging.InLists(Lists(cs), x) && Merging.InLists(Lists(cs), y);
      if x.child != y.child {
        var p, q := cs[x.child].place, cs[y.child].place;
        assert p != q && At(db, p, x.entry) && At(db, q, y.entry);
        assert Newer(p, q) || Newer(q, p);
      } else {
        Merging.LessTotal(x.entry.key, y.entry.key);
      }
    }
  }

  lemma MergeSorted(merged: seq<Merging.Pair>)
    requires Merging.Ascending(merged) && !Merging.SharedKey(merged)
    ensures Sorted(EntriesOf(merged))
  {
    forall i, j | 0 <= i < j < |merged| ensures Less(merged[i].entry.key, merged[j].entry.key) {
      assert Merging.Before(merged[i], merged[j]);
    }
  }

  lemma MergedIsStored(db: Db, cs: seq<Child>, merged: seq<Merging.Pair>, e: Entry)
    requires ChildrenOk(db, cs) && Merging.IsMerge(Lists(cs), merged) && e in EntriesOf(merged)
    ensures e in All(db)
  {
    var i :| 0 <= i < |merged| && EntriesOf(merged)[i] == e;
    assert merged[i] in merged && Merging.InLists(Lists(cs), merged[i]);
    assert At(db, cs[merged[i].child].place, e);
  }

  lemma StoredIsMerged(db: Db, cs: seq<Child>, merged: seq<Merging.Pair>, p: Place, e: Entry)
    requires ChildrenOk(db, cs) && Merging.IsMerge(Lists(cs), merged) && At(db, p, e) && HasPlace(cs, p)
    ensures e in EntriesOf(merged)
  {
    var c :| c in cs && c.place == p;
    var d :| 0 <= d < |cs| && cs[d] == c;
    assert Merging.InLists(Lists(cs), Merging.Pair(e, d));
    var i :| 0 <= i < |merged| && merged[i] == Merging.Pair(e, d);
    assert EntriesOf(merged)[i] == e;
  }

  /** The merge of all places: a sorted run of everything stored, in which no key occurs twice, so
      that the merging iterator over the places is a plain cursor over it. */
  lemma StoreMerge(db: Db, merged: seq<Merging.Pair>)
    requires Inv(db) && Merging.IsMerge(Lists(Children(db)), merged)
    ensures !Merging.SharedKey(merged) && Sorted(EntriesOf(merged))
    ensures (iset e | e in EntriesOf(merged)) == All(db)
  {
    AllChildrenOk(db);
    NoSharedKey(db, Children(db), merged);
    MergeSorted(merged);
    forall e | e in EntriesOf(merged) ensures e in All(db) {
      MergedIsStored(db, Children(db), merged, e);
    }
    forall e | e in All(db) ensures e in EntriesOf(merged) {
      var p :| At(db, p, e);
      PlaceHasChild(db, p, e);
      StoredIsMerged(db, Children(db), merged, p, e);
    }
  }

  // ---------- in every run ----------

  /** In every state of every run, the rows of an iterator over the merge of all places are, at each
      live snapshot, exactly what the history shows: each visible key once, with its value. */
  lemma RowsAreTheHistory(states: seq<System>, steps: seq<Step>, i: nat, merged: seq<Merging.Pair>, s: nat,
                          k: UserKey, v: Bytes)
    requires IsRun(states, steps) && i < |states|
    requires s in states[i].db.snapshots || s >= states[i].db.lastSequence
    requires Merging.IsMerge(Lists(Children(states[i].db)), merged)
    ensures Sorted(EntriesOf(merged)) && !Merging.SharedKey(merged)
    ensures DbIter.Row(k, v) in DbIter.Rows(EntriesOf(merged), s) <==> Reads(states[i].history, k, s) == Some(v)
  {
    EveryRunReadsHistory(states, steps, i, k, s);
    StoreMerge(states[i].db, merged);
    AllUnique(states[i].db);
    DbIter.RowsAreTheVisibleMap(EntriesOf(merged), s, k, v);
  }

  /** The rows show the last put of each key among the first `s` operations, and no key whose last
      operation is a deletion or that was never written. */
  ghost predicate RowsAreOps(rows: seq<DbIter.Row>, ops: seq<Op>, s: nat) {
    var n := if s < |ops| then s else |ops|;
    forall k :: RowIsOps(rows, ops, n, k)
  }

  ghost predicate RowIsOps(rows: seq<DbIter.Row>, ops: seq<Op>, n: nat, k: UserKey)
    requires n <= |ops|
  {
    (forall v :: DbIter.Row(k, v) in rows ==> AnswersOps(ops, n, k, Some(v))) &&
    ((forall v :: DbIter.Row(k, v) !in rows) ==> AnswersOps(ops, n, k, None))
  }

  lemma ReadsAreRows(states: seq<System>, steps: seq<Step>, i: nat, rows: seq<DbIter.Row>, s: nat)
    requires IsRun(states, steps) && i < |states|
    requires s in states[i].db.snapshots || s >= states[i].db.lastSequence
    requires forall k, v :: DbIter.Row(k, v) in rows <==> Reads(states[i].history, k, s) == Some(v)
    ensures RowsAreOps(rows, WrittenOps(steps, i), s)
  {
    hide Reads, AnswersOps;
    var ops := WrittenOps(steps, i);
    var n := if s < |ops| then s else |ops|;
    forall k ensures RowIsOps(rows, ops, n, k) {
      ReadsAreOps(states, steps, i, k, s);
      EveryRunReadsHistory(states, steps, i, k, s);
      var r := Reads(states[i].history, k, s);
      assert r.Some? ==> DbIter.Row(k, r.value) in rows;
    }
  }

  /** Reads every row from the first to the last. */
  method ScanAll(iter: DbIter.DBIter) returns (rows: seq<DbIter.Row>)
    requires iter.Inv()
    modifies iter, iter.iter
    ensures rows == DbIter.Rows(iter.iter.entries, iter.sequence)
  {
    hide Inv, Sorted;
    rows := [];
    iter.SeekToFirst();
    ghost var n := 0;
    while iter.valid
      invariant iter.Inv() && n <= |iter.TheRows()| && rows == iter.TheRows()[..n]
      invariant iter.Position() == Cursors.Clip(n, |iter.TheRows()|)
      decreases |iter.TheRows()| - n
    {
      var row := iter.Current();
      rows := rows + [row.value];
      iter.Next();
      n := n + 1;
    }
    assert iter.TheRows()[..n] == iter.TheRows();
  }

  /** An iterator opened in any state of any run, at the latest sequence number or a live snapshot,
      reads exactly the visible map of the history, in key order. */
  method ScanInRun(ghost states: seq<System>, ghost steps: seq<Step>, ghost i: nat, run: Run, s: nat)
    returns (rows: seq<DbIter.Row>)
    requires IsRun(states, steps) && i < |states|
    requires s in states[i].db.snapshots || s >= states[i].db.lastSequence
    requires exists merged :: Merging.IsMerge(Lists(Children(states[i].db)), merged) && run == EntriesOf(merged)
    ensures forall k, v :: DbIter.Row(k, v) in rows <==> Reads(states[i].history, k, s) == Some(v)
    ensures forall a, b :: 0 <= a < b < |rows| ==> rows[a].key < rows[b].key
    ensures RowsAreOps(rows, WrittenOps(steps, i), s)
  {
    ghost var merged :| Merging.IsMerge(Lists(Children(states[i].db)), merged) && run == EntriesOf(merged);
    forall k, v
      ensures Sorted(run) && (DbIter.Row(k, v) in DbIter.Rows(run, s) <==> Reads(states[i].history, k, s) == Some(v))
    {
      RowsAreTheHistory(states, steps, i, merged, s, k, v);
    }
    RowsAreTheHistory(states, steps, i, merged, s, 0.0, []);
    var inner := new Cursors.Cursor(run);
    var iter := new DbIter.DBIter(inner, s);
    rows := ScanAll(iter);
    forall a, b | 0 <= a < b < |rows| ensures rows[a].key < rows[b].key {
      DbIter.RowsAscend(run, s, a, b);
    }
    ReadsAreRows(states, steps, i, rows, s);
  }
}
