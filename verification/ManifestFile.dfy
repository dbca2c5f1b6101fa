/** The manifest file: edits as records of a log, and recovery from its bytes (version_set.cc
    Recover, with log_reader.cc and version_edit.cc underneath).
  */
module ManifestFile {
  import opened Keys
  import opened Versions
  import opened Coding
  import opened Sequences
  import opened Separators
  import opened EditCodec
  import opened Manifest
  import opened LsmSteps
  import opened LsmRuns
  import KeyBytes
  import ManifestRuns
  import Log
  import LogRoundTrip

  // ---------- keys and files as bytes ----------

  /** The key that bytes of an internal key stand for. */
  function ParseKey(b: Bytes): InternalKey {
    Abs(KeyBytes.Parse(b))
  }

  function FileOf(r: FileRecord): FileMeta {
    FileMeta(r.number, r.size, ParseKey(r.smallest), ParseKey(r.largest))
  }

  /** The file part of a decoded edit. */
  function FileEditOf(e: VersionEdit): FileEdit {
    FileEdit(set p | p in e.deletedFiles,
             seq(|e.newFiles|, i requires 0 <= i < |e.newFiles| => (e.newFiles[i].0, FileOf(e.newFiles[i].1))))
  }

  function FileEdits(es: seq<VersionEdit>): seq<FileEdit> {
    seq(|es|, i requires 0 <= i < |es| => FileEditOf(es[i]))
  }

  /** An edit as the code builds it: deleted files in set order, all fields in range. */
  ghost predicate Encodable(e: VersionEdit) {
    Ascending(e.deletedFiles) && AllFit(Items(e))
  }

  function Records(es: seq<VersionEdit>): seq<Bytes> {
    seq(|es|, i requires 0 <= i < |es| => EncodeItems(Items(es[i])))
  }

  // ---------- every edit has a record ----------

  /** The elements of a set of pairs in order. */
  ghost function InOrder(s: set<(nat, nat)>): (r: seq<(nat, nat)>)
    ensures Ascending(r) && forall p :: p in r <==> p in s
  {
    if s == {} then []
    else
      var p :| p in s;
      InsertedInOrder(InOrder(s - {p}), p);
      InsertPair(InOrder(s - {p}), p)
  }

  lemma {:induction false} InsertedInOrder(s: seq<(nat, nat)>, p: (nat, nat))
    requires Ascending(s)
    ensures Ascending(InsertPair(s, p)) && forall q :: q in InsertPair(s, p) <==> q in s || q == p
  {
    if s == [] || PairLess(p, s[0]) {
      assert s != [] ==> forall i :: 0 <= i < |s| ==> PairLess(p, s[i]);
    } else if s[0] != p {
      assert s == [s[0]] + s[1..];
      InsertedInOrder(s[1..], p);
      var rest := InsertPair(s[1..], p);
      forall j | 0 <= j < |rest| ensures PairLess(s[0], rest[j]) {
        assert rest[j] in rest;
      }
    }
  }

  /** The raw form of the key, its number and size fit their fields. */
  ghost predicate FileFits(f: FileMeta, raw: InternalKey -> RawKey) {
    f.number < TWO64 && f.size < TWO64 && KeyFits(f.smallest, raw) && KeyFits(f.largest, raw)
  }

  ghost predicate KeyFits(k: InternalKey, raw: InternalKey -> RawKey) {
    Abs(raw(k)) == k && k.sequence <= MAX_SEQUENCE && |raw(k).user| + 8 < TWO32
  }

  function RecordOf(f: FileMeta, raw: InternalKey -> RawKey): FileRecord {
    FileRecord(f.number, f.size, KeyBytes.Encode(raw(f.smallest)), KeyBytes.Encode(raw(f.largest)))
  }

  ghost function RecordEdit(e: FileEdit, raw: InternalKey -> RawKey): VersionEdit {
    FRESH.(deletedFiles := InOrder(e.deleted),
           newFiles := seq(|e.added|, i requires 0 <= i < |e.added| => (e.added[i].0, RecordOf(e.added[i].1, raw))))
  }

  lemma RecordRoundTrip(f: FileMeta, raw: InternalKey -> RawKey)
    requires FileFits(f, raw)
    ensures FileOf(RecordOf(f, raw)) == f
  {
    KeyBytes.RoundTrip(raw(f.smallest));
    KeyBytes.RoundTrip(raw(f.largest));
  }

  lemma RecordFits(e: FileEdit, raw: InternalKey -> RawKey)
    requires ManifestRuns.LevelsOk(e) && forall p :: p in e.deleted ==> p.1 < TWO64
    requires forall i :: 0 <= i < |e.added| ==> FileFits(e.added[i].1, raw)
    ensures Encodable(RecordEdit(e, raw))
  {
    hide KeyBytes.Encode;
    var r := RecordEdit(e, raw);
    var ds, fs := Deletions(r.deletedFiles), Files(r.newFiles);
    forall i | 0 <= i < |ds| ensures ItemFits(ds[i]) {
      assert r.deletedFiles[i] in r.deletedFiles;
    }
    assert AllFit(ds + fs) && Items(r) == ds + fs;
  }

  /** Every edit over files with byte-string keys can be recorded. */
  lemma EditHasRecord(e: FileEdit, raw: InternalKey -> RawKey)
    requires ManifestRuns.LevelsOk(e) && forall p :: p in e.deleted ==> p.1 < TWO64
    requires forall i :: 0 <= i < |e.added| ==> FileFits(e.added[i].1, raw)
    ensures Encodable(RecordEdit(e, raw)) && FileEditOf(RecordEdit(e, raw)) == e
  {
    hide Encodable, KeyFits, FileFits, FileOf, RecordOf;
    RecordFits(e, raw);
    var r := RecordEdit(e, raw);
    assert (set p | p in r.deletedFiles) == e.deleted;
    forall i | 0 <= i < |e.added| ensures FileOf(r.newFiles[i].1) == e.added[i].1 {
      RecordRoundTrip(e.added[i].1, raw);
    }
    assert FileEditOf(r).added == e.added;
  }

  // ---------- recovery from bytes ----------

  /** What recovery installs: the version and the counters. */
  datatype Recovery = Recovery(version: Version, logNumber: nat, prevLogNumber: nat, nextFileNumber: nat,
                               lastSequence: nat)

  /** The later value, if there is one. */
  function Later<T>(older: Option<T>, later: Option<T>): Option<T> {
    if later.Some? then later else older
  }

  /** The counters after one more record, kept in an edit without files. */
  function AddCounters(before: VersionEdit, e: VersionEdit): VersionEdit {
    FRESH.(logNumber := Later(before.logNumber, e.logNumber),
           prevLogNumber := Later(before.prevLogNumber, e.prevLogNumber),
           nextFileNumber := Later(before.nextFileNumber, e.nextFileNumber),
           lastSequence := Later(before.lastSequence, e.lastSequence))
  }

  function Counters(es: seq<VersionEdit>): VersionEdit {
    if es == [] then FRESH else AddCounters(Counters(es[..|es| - 1]), es[|es| - 1])
  }

  /** The counters without which recovery reports corruption. */
  predicate Complete(counters: VersionEdit) {
    counters.logNumber.Some? && counters.nextFileNumber.Some? && counters.lastSequence.Some?
  }

  function RecoveryOf(v: Version, counters: VersionEdit): Recovery
    requires Complete(counters)
  {
    Recovery(v, counters.logNumber.value, if counters.prevLogNumber.Some? then counters.prevLogNumber.value else 0,
             counters.nextFileNumber.value, counters.lastSequence.value)
  }

  predicate SameComparator(e: VersionEdit, comparator: Bytes) {
    e.comparator.Some? ==> e.comparator.value == comparator
  }

  /** What the records decode to, each into a fresh edit; nothing if one of them is malformed. */
  function DecodeRecords(records: seq<Bytes>): (r: Option<seq<VersionEdit>>)
    ensures r.Some? ==> |r.value| == |records|
  {
    if records == [] then Some([])
    else
      var before, last := DecodeRecords(records[..|records| - 1]), Decode(Clear(FRESH), records[|records| - 1]);
      if before.None? || last.None? then None else Some(before.value + [last.value])
  }

  ghost predicate EditLevelsOk(e: VersionEdit) {
    (forall i :: 0 <= i < |e.deletedFiles| ==> e.deletedFiles[i].0 < NUM_LEVELS) &&
    (forall i :: 0 <= i < |e.newFiles| ==> e.newFiles[i].0 < NUM_LEVELS)
  }

  lemma {:induction false} InsertedLevels(s: seq<(nat, nat)>, p: (nat, nat))
    requires p.0 < NUM_LEVELS && forall i :: 0 <= i < |s| ==> s[i].0 < NUM_LEVELS
    ensures forall i :: 0 <= i < |InsertPair(s, p)| ==> InsertPair(s, p)[i].0 < NUM_LEVELS
  {
    if s != [] && !PairLess(p, s[0]) && s[0] != p {
      InsertedLevels(s[1..], p);
    }
  }

  /** A decoded edit names existing levels only. */
  lemma AppliedLevels(e: VersionEdit, i: Item)
    requires EditLevelsOk(e)
    requires i.DeletedFile? || i.NewFile? ==> i.level < NUM_LEVELS
    ensures EditLevelsOk(ApplyItem(e, i))
  {
    if i.DeletedFile? {
      InsertedLevels(e.deletedFiles, (i.level, i.number));
    }
  }

  lemma BodyLevels(tag: nat, input: Bytes)
    requires GetBody(tag, input).Ok?
    ensures var i := GetBody(tag, input).value; i.DeletedFile? || i.NewFile? ==> i.level < NUM_LEVELS
  {
    hide GetVarint32, GetVarint64, GetSlice, GetFile;
  }

  /** A decoded edit names existing levels only. */
  lemma {:induction false} DecodedLevels(e: VersionEdit, input: Bytes)
    requires EditLevelsOk(e) && Decode(e, input).Some?
    ensures EditLevelsOk(Decode(e, input).value)
    decreases |input|
  {
    hide GetVarint32, GetBody, ApplyItem, EditLevelsOk;
    var tag := GetVarint32(input);
    if tag.Ok? {
      var body := GetBody(tag.value, tag.rest);
      BodyLevels(tag.value, tag.rest);
      AppliedLevels(e, body.value);
      DecodedLevels(ApplyItem(e, body.value), body.rest);
    }
  }

  /** The builder's state after the first `n` records. */
  ghost function Built(es: seq<VersionEdit>, n: nat): BuilderState
    requires n <= |es|
  {
    if n == 0 then EmptyBuilder() else ApplyEdit(Built(es, n - 1), FileEditOf(es[n - 1]))
  }

  /** The version of the manifest whose records decode to `es`. */
  ghost function ManifestVersion(es: seq<VersionEdit>): Version {
    SaveVersion(EmptyVersion(), Built(es, |es|))
  }

  ghost predicate DisjointLevels(v: Version) {
    forall l :: 0 < l < NUM_LEVELS ==> DisjointFiles(v[l])
  }

  /** No edit names a comparator other than the given one. */
  ghost predicate SameComparators(es: seq<VersionEdit>, comparator: Bytes) {
    forall i :: 0 <= i < |es| ==> es[i].comparator == None || es[i].comparator == Some(comparator)
  }

  lemma {:induction false} DecodedPrefix(records: seq<Bytes>, n: nat)
    requires n <= |records|
    ensures DecodeRecords(records).Some? ==>
      DecodeRecords(records[..n]).Some? && DecodeRecords(records[..n]).value == DecodeRecords(records).value[..n]
    decreases |records|
  {
    if n == |records| {
      assert records[..n] == records;
    } else {
      DecodedPrefix(records[..|records| - 1], n);
      assert records[..|records| - 1][..n] == records[..n];
    }
  }

  /** What the first `i + 1` records decode to, and what that says about all of them. */
  lemma DecodeNext(records: seq<Bytes>, i: nat, es: seq<VersionEdit>, edit: Option<VersionEdit>, comparator: Bytes)
    requires i < |records| && DecodeRecords(records[..i]) == Some(es) && SameComparators(es, comparator)
    requires edit == Decode(Clear(FRESH), records[i])
    ensures edit.None? ==> DecodeRecords(records).None?
    ensures edit.Some? ==> DecodeRecords(records[..i + 1]) == Some(es + [edit.value])
    ensures edit.Some? && !SameComparator(edit.value, comparator) && DecodeRecords(records).Some? ==>
      !SameComparators(DecodeRecords(records).value, comparator)
    ensures edit.Some? && SameComparator(edit.value, comparator) ==> SameComparators(es + [edit.value], comparator)
  {
    hide Decode, Clear;
    assert records[..i + 1][..i] == records[..i];
    DecodedPrefix(records, i + 1);
    if edit.Some? && DecodeRecords(records).Some? {
      assert DecodeRecords(records).value[i] == edit.value;
    }
  }

  lemma NothingReplayed(records: seq<Bytes>, comparator: Bytes)
    ensures DecodeRecords(records[..0]) == Some([]) && Built([], 0) == EmptyBuilder() && Counters([]) == FRESH
    ensures EditLevelsOk(Clear(FRESH)) && SameComparators([], comparator)
  {
  }

  /** The loop of Recover: stops at the first record that is malformed or names another comparator. */
  method ReplayRecords(records: seq<Bytes>, comparator: Bytes)
    returns (ok: bool, builder: VersionBuilder, counters: VersionEdit)
    ensures fresh(builder) && builder.base == EmptyVersion()
    ensures ok <==> DecodeRecords(records).Some? && SameComparators(DecodeRecords(records).value, comparator)
    ensures ok ==> builder.levels == Built(DecodeRecords(records).value, |records|)
    ensures ok ==> counters == Counters(DecodeRecords(records).value)
  {
    hide DecodeRecords, Decode, Clear, Built, Counters, SameComparator, SameComparators, ApplyEdit;
    builder := new VersionBuilder(EmptyVersion());
    counters, ok := FRESH, true;
    ghost var es: seq<VersionEdit> := [];
    var i := 0;
    NothingReplayed(records, comparator);
    while i < |records|
      invariant i <= |records| && fresh(builder) && builder.base == EmptyVersion()
      invariant DecodeRecords(records[..i]) == Some(es) && SameComparators(es, comparator)
      invariant builder.levels == Built(es, i) && counters == Counters(es)
    {
      var edit := DecodeFrom(FRESH, records[i]);
      DecodeNext(records, i, es, edit, comparator);
      if edit.None? || !SameComparator(edit.value, comparator) {
        return false, builder, counters;
      }
      DecodedLevels(Clear(FRESH), records[i]);
      builder.Apply(FileEditOf(edit.value));
      BuiltSnoc(es, edit.value);
      CountersSnoc(es, edit.value);
      counters := AddCounters(counters, edit.value);
      es := es + [edit.value];
      i := i + 1;
    }
    assert records[..|records|] == records;
  }

  lemma CountersSnoc(es: seq<VersionEdit>, e: VersionEdit)
    ensures Counters(es + [e]) == AddCounters(Counters(es), e)
  {
    assert (es + [e])[..|es|] == es;
  }

  lemma {:induction false} BuiltPrefix(es: seq<VersionEdit>, more: seq<VersionEdit>, n: nat)
    requires n <= |es|
    ensures Built(es + more, n) == Built(es, n)
  {
    if n == 0 {
    } else {
      BuiltPrefix(es, more, n - 1);
    }
  }

  lemma BuiltSnoc(es: seq<VersionEdit>, e: VersionEdit)
    ensures Built(es + [e], |es| + 1) == ApplyEdit(Built(es, |es|), FileEditOf(e))
  {
    BuiltPrefix(es, [e], |es|);
  }

  function LogNumbers(es: seq<VersionEdit>): seq<Option<nat>> {
    seq(|es|, i requires 0 <= i < |es| => es[i].logNumber)
  }

  function PrevLogNumbers(es: seq<VersionEdit>): seq<Option<nat>> {
    seq(|es|, i requires 0 <= i < |es| => es[i].prevLogNumber)
  }

  function NextFileNumbers(es: seq<VersionEdit>): seq<Option<nat>> {
    seq(|es|, i requires 0 <= i < |es| => es[i].nextFileNumber)
  }

  function LastSequences(es: seq<VersionEdit>): seq<Option<nat>> {
    seq(|es|, i requires 0 <= i < |es| => es[i].lastSequence)
  }

  ghost predicate LastAt(column: seq<Option<nat>>, i: nat, n: nat) {
    i < |column| && column[i] == Some(n) && forall j :: i < j < |column| ==> column[j].None?
  }

  ghost predicate Absent(column: seq<Option<nat>>) {
    forall i :: 0 <= i < |column| ==> column[i].None?
  }

  /** `n` is the value in the last record that has one. */
  ghost predicate IsLast(column: seq<Option<nat>>, n: nat) {
    exists i :: LastAt(column, i, n)
  }

  ghost predicate Newest(column: seq<Option<nat>>, r: Option<nat>) {
    if r.Some? then IsLast(column, r.value) else Absent(column)
  }

  lemma NewestSnoc(column: seq<Option<nat>>, r: Option<nat>, x: Option<nat>)
    requires Newest(column, r)
    ensures Newest(column + [x], Later(r, x))
  {
    if x.Some? {
      assert LastAt(column + [x], |column|, x.value);
    } else if r.Some? {
      var i :| LastAt(column, i, r.value);
      assert LastAt(column + [x], i, r.value);
    }
  }

  lemma NewestIsUnique(column: seq<Option<nat>>, m: nat, n: nat)
    requires IsLast(column, m)
    ensures !Absent(column) && (IsLast(column, n) ==> m == n)
  {
    var i :| LastAt(column, i, m);
    if IsLast(column, n) {
      var j :| LastAt(column, j, n);
    }
  }

  /** The counters after all records: each is the value in the last record that has it. */
  lemma {:induction false} CountersAreNewest(es: seq<VersionEdit>)
    ensures var c := Counters(es);
      Newest(LogNumbers(es), c.logNumber) && Newest(PrevLogNumbers(es), c.prevLogNumber) &&
      Newest(NextFileNumbers(es), c.nextFileNumber) && Newest(LastSequences(es), c.lastSequence)
  {
    hide Newest, Later;
    if es == [] {
      NothingNewest();
    } else {
      var init, e := es[..|es| - 1], es[|es| - 1];
      var c := Counters(init);
      CountersAreNewest(init);
      NewestSnoc(LogNumbers(init), c.logNumber, e.logNumber);
      NewestSnoc(PrevLogNumbers(init), c.prevLogNumber, e.prevLogNumber);
      NewestSnoc(NextFileNumbers(init), c.nextFileNumber, e.nextFileNumber);
      NewestSnoc(LastSequences(init), c.lastSequence, e.lastSequence);
      ColumnsSnoc(init, e);
      assert es == init + [e];
    }
  }

  lemma NothingNewest()
    ensures Newest([], None)
    ensures LogNumbers([]) == PrevLogNumbers([]) == NextFileNumbers([]) == LastSequences([]) == []
  {
  }

  lemma ColumnsSnoc(es: seq<VersionEdit>, e: VersionEdit)
    ensures LogNumbers(es + [e]) == LogNumbers(es) + [e.logNumber]
    ensures PrevLogNumbers(es + [e]) == PrevLogNumbers(es) + [e.prevLogNumber]
    ensures NextFileNumbers(es + [e]) == NextFileNumbers(es) + [e.nextFileNumber]
    ensures LastSequences(es + [e]) == LastSequences(es) + [e.lastSequence]
  {
  }

  lemma CountersComplete(es: seq<VersionEdit>)
    ensures Complete(Counters(es)) <==>
      !Absent(LogNumbers(es)) && !Absent(NextFileNumbers(es)) && !Absent(LastSequences(es))
    ensures Complete(Counters(es)) ==> forall v :: NumbersRecovered(es, RecoveryOf(v, Counters(es)))
  {
    var c := Counters(es);
    CountersAreNewest(es);
    if c.logNumber.Some? { NewestIsUnique(LogNumbers(es), c.logNumber.value, 0); }
    if c.prevLogNumber.Some? { NewestIsUnique(PrevLogNumbers(es), c.prevLogNumber.value, 0); }
    if c.nextFileNumber.Some? { NewestIsUnique(NextFileNumbers(es), c.nextFileNumber.value, 0); }
    if c.lastSequence.Some? { NewestIsUnique(LastSequences(es), c.lastSequence.value, 0); }
  }

  /** Each recovered number is the one in the last record that has it; no previous log counts as 0. */
  ghost predicate NumbersRecovered(es: seq<VersionEdit>, r: Recovery) {
    IsLast(LogNumbers(es), r.logNumber) && IsLast(NextFileNumbers(es), r.nextFileNumber) &&
    IsLast(LastSequences(es), r.lastSequence) &&
    if Absent(PrevLogNumbers(es)) then r.prevLogNumber == 0 else IsLast(PrevLogNumbers(es), r.prevLogNumber)
  }

  /** Recover, from the bytes of the manifest.  `reports` of the log reader, malformed edits, a
      foreign comparator and missing counters are errors. */
  method RecoverManifest(c: Log.Checksum, file: Bytes, comparator: Bytes) returns (r: Option<Recovery>)
    requires var es := DecodeRecords(Log.ReadLog(c, file).records);
      es.Some? ==> DisjointLevels(ManifestVersion(es.value))
    ensures var log := Log.ReadLog(c, file);
      var es := DecodeRecords(log.records);
      (r.Some? <==> log.reports == [] && es.Some? && SameComparators(es.value, comparator) &&
                    Complete(Counters(es.value))) &&
      (r.Some? ==> r.value == RecoveryOf(ManifestVersion(es.value), Counters(es.value)))
    ensures var log := Log.ReadLog(c, file);
      var es := DecodeRecords(log.records);
      (r.Some? <==> log.reports == [] && es.Some? && SameComparators(es.value, comparator) &&
                    !Absent(LogNumbers(es.value)) && !Absent(NextFileNumbers(es.value)) &&
                    !Absent(LastSequences(es.value))) &&
      (r.Some? ==> r.value.version == ManifestVersion(es.value) && NumbersRecovered(es.value, r.value))
  {
    hide Absent, NumbersRecovered, IsLast;
    var records, reports := Log.ReadAll(c, file);
    var ok, builder, counters := ReplayRecords(records, comparator);
    if DecodeRecords(records).Some? {
      CountersComplete(DecodeRecords(records).value);
    }
    if reports != [] || !ok || !Complete(counters) {
      return None;
    }
    assert forall l :: 0 <= l < NUM_LEVELS ==>
      SaveLevel(builder.base[l], builder.levels[l]) == ManifestVersion(DecodeRecords(records).value)[l];
    var version := builder.SaveTo();
    r := Some(RecoveryOf(version, counters));
  }

  // ---------- recovery of a written manifest ----------

  /** A manifest as the code writes it: a snapshot record of `v`, then clean edits. */
  ghost predicate Written(es: seq<VersionEdit>, v: Version) {
    es != [] && (forall i :: 0 <= i < |es| ==> Encodable(es[i])) &&
    FileEditOf(es[0]) == Snapshot(v) && SortedVersion(v) && CleanHistory(v, FileEdits(es[1..]))
  }

  lemma {:induction false} BuiltIsReplay(es: seq<VersionEdit>, v: Version, n: nat)
    requires 0 < n <= |es| && FileEditOf(es[0]) == Snapshot(v)
    ensures Built(es, n) == Replay(v, FileEdits(es[1..])[..n - 1])
  {
    if n > 1 {
      BuiltIsReplay(es, v, n - 1);
      var edits := FileEdits(es[1..]);
      assert edits[..n - 1][..n - 2] == edits[..n - 2] && edits[n - 2] == FileEditOf(es[n - 1]);
    }
  }

  lemma DecodeSnoc(records: seq<Bytes>, es: seq<VersionEdit>, record: Bytes, e: VersionEdit)
    requires DecodeRecords(records) == Some(es) && Decode(Clear(FRESH), record) == Some(e)
    ensures DecodeRecords(records + [record]) == Some(es + [e])
  {
    assert (records + [record])[..|records|] == records;
  }

  lemma RecordDecodes(es: seq<VersionEdit>, i: nat)
    requires i < |es| && Encodable(es[i])
    ensures Decode(Clear(FRESH), Records(es)[i]) == Some(es[i])
  {
    EditRoundTrip(FRESH, es[i]);
  }

  lemma {:induction false} AllDecode(records: seq<Bytes>, es: seq<VersionEdit>, n: nat)
    requires n <= |es| == |records| && forall i :: 0 <= i < |es| ==> Decode(Clear(FRESH), records[i]) == Some(es[i])
    ensures DecodeRecords(records[..n]) == Some(es[..n])
  {
    if n == 0 {
    } else {
      AllDecode(records, es, n - 1);
      DecodeSnoc(records[..n - 1], es[..n - 1], records[n - 1], es[n - 1]);
      TakeNext(records, n - 1);
      TakeNext(es, n - 1);
    }
  }

  /** Records decode into fresh edits as the edits they were written from. */
  lemma RecordsDecode(es: seq<VersionEdit>)
    requires forall i :: 0 <= i < |es| ==> Encodable(es[i])
    ensures DecodeRecords(Records(es)) == Some(es)
  {
    var records := Records(es);
    forall i | 0 <= i < |es| ensures Decode(Clear(FRESH), records[i]) == Some(es[i]) {
      RecordDecodes(es, i);
    }
    AllDecode(records, es, |es|);
    assert records[..|es|] == records && es[..|es|] == es;
  }

  lemma WrittenVersion(es: seq<VersionEdit>, v: Version)
    requires Written(es, v)
    ensures ManifestVersion(es) == Installed(v, FileEdits(es[1..]))
  {
    var edits := FileEdits(es[1..]);
    BuiltIsReplay(es, v, |es|);
    assert edits[..|es| - 1] == edits;
    RecoverEqualsInstall(v, edits);
  }

  /** The bytes of a written manifest stand for the version its edits installed. */
  lemma WrittenManifest(c: Log.Checksum, es: seq<VersionEdit>, v: Version)
    requires Log.Lawful(c) && Written(es, v)
    ensures var log := Log.ReadLog(c, Log.LayOut(c, LogRoundTrip.LogFragments(Records(es), 0), 0));
      log.reports == [] && DecodeRecords(log.records) == Some(es)
    ensures ManifestVersion(es) == Installed(v, FileEdits(es[1..]))
  {
    LogRoundTrip.RoundTrip(c, Records(es));
    RecordsDecode(es);
    WrittenVersion(es, v);
  }

  /** A store whose manifest was started at moment `i` of its run and has the run's edits since then
      recovers, from the manifest's bytes, the version it had at moment `j`. */
  method RecoverRun(c: Log.Checksum, file: Bytes, comparator: Bytes, ghost es: seq<VersionEdit>,
                    ghost states: seq<System>, ghost steps: seq<Step>, ghost i: nat, ghost j: nat)
    returns (r: Option<Recovery>)
    requires Log.Lawful(c) && file == Log.LayOut(c, LogRoundTrip.LogFragments(Records(es), 0), 0)
    requires IsRun(states, steps) && i <= j < |states| && es != []
    requires !Absent(LogNumbers(es)) && !Absent(NextFileNumbers(es)) && !Absent(LastSequences(es))
    requires SameComparators(es, comparator) && forall n :: 0 <= n < |es| ==> Encodable(es[n])
    requires FileEditOf(es[0]) == Snapshot(states[i].db.version)
    requires FileEdits(es[1..]) == ManifestRuns.Edits(states, steps, i, j)
    ensures r.Some? && r.value.version == states[j].db.version && NumbersRecovered(es, r.value)
  {
    ManifestRuns.RunEdits(states, steps, i, j);
    RunInvariant(states, steps, i);
    RunInvariant(states, steps, j);
    WrittenManifest(c, es, states[i].db.version);
    r := RecoverManifest(c, file, comparator);
  }
}
