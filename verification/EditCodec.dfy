/** The byte form of version edits (version_edit.cc).  Keys are the byte strings that InternalKey
    encodes to; the ordered set of deleted files is the ascending sequence of its elements.
  */
module EditCodec {
  import opened Keys
  import opened Coding
  import opened Versions
  import opened Sequences

  const COMPARATOR: nat := 1
  const LOG_NUMBER: nat := 2
  const NEXT_FILE_NUMBER: nat := 3
  const LAST_SEQUENCE: nat := 4
  const COMPACT_POINTER: nat := 5
  const DELETED_FILE: nat := 6
  const NEW_FILE: nat := 7
  const PREV_LOG_NUMBER: nat := 9

  datatype FileRecord = FileRecord(number: nat, size: nat, smallest: Bytes, largest: Bytes)

  datatype VersionEdit = VersionEdit(
    comparator: Option<Bytes>, logNumber: Option<nat>, prevLogNumber: Option<nat>,
    nextFileNumber: Option<nat>, lastSequence: Option<nat>,
    compactPointers: seq<(nat, Bytes)>, deletedFiles: seq<(nat, nat)>, newFiles: seq<(nat, FileRecord)>)

  const FRESH: VersionEdit := VersionEdit(None, None, None, None, None, [], [], [])

  /** Clear resets everything but the compaction pointers. */
  function Clear(e: VersionEdit): VersionEdit {
    FRESH.(compactPointers := e.compactPointers)
  }

  // ---------- the items of an edit ----------

  datatype Item =
    | Comparator(name: Bytes)
    | LogNumber(number: nat)
    | PrevLogNumber(number: nat)
    | NextFileNumber(number: nat)
    | LastSequence(number: nat)
    | CompactPointer(level: nat, key: Bytes)
    | DeletedFile(level: nat, number: nat)
    | NewFile(level: nat, file: FileRecord)

  /** Lengths, numbers and levels fit their fields. */
  predicate ItemFits(i: Item) {
    match i
    case Comparator(name) => |name| < TWO32
    case CompactPointer(level, key) => level < NUM_LEVELS && |key| < TWO32
    case DeletedFile(level, number) => level < NUM_LEVELS && number < TWO64
    case NewFile(level, f) =>
      level < NUM_LEVELS && f.number < TWO64 && f.size < TWO64 && |f.smallest| < TWO32 && |f.largest| < TWO32
    case _ => i.number < TWO64
  }

  function TagOf(i: Item): nat {
    match i
    case Comparator(_) => COMPARATOR
    case LogNumber(_) => LOG_NUMBER
    case PrevLogNumber(_) => PREV_LOG_NUMBER
    case NextFileNumber(_) => NEXT_FILE_NUMBER
    case LastSequence(_) => LAST_SEQUENCE
    case CompactPointer(_, _) => COMPACT_POINTER
    case DeletedFile(_, _) => DELETED_FILE
    case NewFile(_, _) => NEW_FILE
  }

  function Body(i: Item): Bytes {
    match i
    case Comparator(name) => PutSlice(name)
    case CompactPointer(level, key) => PutVarint(level) + PutSlice(key)
    case DeletedFile(level, number) => PutVarint(level) + PutVarint(number)
    case NewFile(level, f) =>
      PutVarint(level) + (PutVarint(f.number) + (PutVarint(f.size) + (PutSlice(f.smallest) + PutSlice(f.largest))))
    case _ => PutVarint(i.number)
  }

  function EncodeItem(i: Item): Bytes {
    PutVarint(TagOf(i)) + Body(i)
  }

  function NameItems(e: VersionEdit): seq<Item> {
    (if e.comparator.Some? then [Comparator(e.comparator.value)] else []) +
    (if e.logNumber.Some? then [LogNumber(e.logNumber.value)] else []) +
    (if e.prevLogNumber.Some? then [PrevLogNumber(e.prevLogNumber.value)] else [])
  }

  function Scalars(e: VersionEdit): seq<Item> {
    NameItems(e) +
    (if e.nextFileNumber.Some? then [NextFileNumber(e.nextFileNumber.value)] else []) +
    (if e.lastSequence.Some? then [LastSequence(e.lastSequence.value)] else [])
  }

  function Pointers(ps: seq<(nat, Bytes)>): seq<Item> {
    seq(|ps|, i requires 0 <= i < |ps| => CompactPointer(ps[i].0, ps[i].1))
  }

  function Deletions(ds: seq<(nat, nat)>): seq<Item> {
    seq(|ds|, i requires 0 <= i < |ds| => DeletedFile(ds[i].0, ds[i].1))
  }

  function Files(fs: seq<(nat, FileRecord)>): seq<Item> {
    seq(|fs|, i requires 0 <= i < |fs| => NewFile(fs[i].0, fs[i].1))
  }

  /** The items of an edit in the order they are written. */
  function Items(e: VersionEdit): seq<Item> {
    Scalars(e) + (Pointers(e.compactPointers) + (Deletions(e.deletedFiles) + Files(e.newFiles)))
  }

  function EncodeItems(items: seq<Item>): Bytes {
    if items == [] then [] else EncodeItems(items[..|items| - 1]) + EncodeItem(items[|items| - 1])
  }

  lemma EncodeSnoc(items: seq<Item>, i: Item)
    ensures EncodeItems(items + [i]) == EncodeItems(items) + EncodeItem(i)
  {
    assert (items + [i])[..|items|] == items;
  }

  // ---------- decoding one item ----------

  function GetLevel(input: Bytes): (r: Parsed<nat>)
    ensures r.Ok? ==> r.value < NUM_LEVELS && |r.rest| < |input|
  {
    match GetVarint32(input)
    case Fail => Fail
    case Ok(v, rest) => if v < NUM_LEVELS then Ok(v, rest) else Fail
  }

  function NumberItem(tag: nat, n: nat): Item {
    if tag == LOG_NUMBER then LogNumber(n)
    else if tag == PREV_LOG_NUMBER then PrevLogNumber(n)
    else if tag == NEXT_FILE_NUMBER then NextFileNumber(n)
    else LastSequence(n)
  }

  function GetNumber(tag: nat, input: Bytes): (r: Parsed<Item>)
    ensures r.Ok? ==> |r.rest| < |input|
  {
    match GetVarint64(input) case Fail => Fail case Ok(n, rest) => Ok(NumberItem(tag, n), rest)
  }

  function GetName(input: Bytes): (r: Parsed<Item>)
    ensures r.Ok? ==> |r.rest| < |input|
  {
    match GetSlice(input) case Fail => Fail case Ok(s, rest) => Ok(Comparator(s), rest)
  }

  function GetPointer(input: Bytes): (r: Parsed<Item>)
    ensures r.Ok? ==> |r.rest| < |input|
  {
    match GetLevel(input) case Fail => Fail case Ok(level, rest) =>
    match GetSlice(rest) case Fail => Fail case Ok(key, rest') => Ok(CompactPointer(level, key), rest')
  }

  function GetDeletion(input: Bytes): (r: Parsed<Item>)
    ensures r.Ok? ==> |r.rest| < |input|
  {
    match GetLevel(input) case Fail => Fail case Ok(level, rest) =>
    match GetVarint64(rest) case Fail => Fail case Ok(number, rest') => Ok(DeletedFile(level, number), rest')
  }

  function GetFile(input: Bytes): (r: Parsed<FileRecord>)
    ensures r.Ok? ==> |r.rest| < |input|
  {
    match GetVarint64(input) case Fail => Fail case Ok(number, r1) =>
    match GetVarint64(r1) case Fail => Fail case Ok(size, r2) =>
    match GetSlice(r2) case Fail => Fail case Ok(smallest, r3) =>
    match GetSlice(r3) case Fail => Fail case Ok(largest, r4) =>
      Ok(FileRecord(number, size, smallest, largest), r4)
  }

  function GetNewFile(input: Bytes): (r: Parsed<Item>)
    ensures r.Ok? ==> |r.rest| < |input|
  {
    match GetLevel(input) case Fail => Fail case Ok(level, rest) =>
    match GetFile(rest) case Fail => Fail case Ok(f, rest') => Ok(NewFile(level, f), rest')
  }

  /** What follows a tag. */
  function GetBody(tag: nat, input: Bytes): (r: Parsed<Item>)
    ensures r.Ok? ==> |r.rest| < |input|
  {
    if tag == COMPARATOR then GetName(input)
    else if tag == LOG_NUMBER || tag == PREV_LOG_NUMBER || tag == NEXT_FILE_NUMBER || tag == LAST_SEQUENCE then
      GetNumber(tag, input)
    else if tag == COMPACT_POINTER then GetPointer(input)
    else if tag == DELETED_FILE then GetDeletion(input)
    else if tag == NEW_FILE then GetNewFile(input)
    else Fail
  }

  lemma LevelRoundTrip(level: nat, rest: Bytes)
    requires level < NUM_LEVELS
    ensures GetLevel(PutVarint(level) + rest) == Ok(level, rest)
  {
    Varint32RoundTrip(level, rest);
  }

  lemma FileRoundTrip(f: FileRecord, rest: Bytes)
    requires f.number < TWO64 && f.size < TWO64 && |f.smallest| < TWO32 && |f.largest| < TWO32
    ensures GetFile(FileTail(f, rest)) == Ok(f, rest)
  {
    SliceRoundTrip(f.largest, rest);
    SliceRoundTrip(f.smallest, PutSlice(f.largest) + rest);
    Varint64RoundTrip(f.size, PutSlice(f.smallest) + (PutSlice(f.largest) + rest));
    Varint64RoundTrip(f.number, PutVarint(f.size) + (PutSlice(f.smallest) + (PutSlice(f.largest) + rest)));
  }

  lemma PointerRoundTrip(i: Item, rest: Bytes)
    requires ItemFits(i) && i.CompactPointer?
    ensures GetBody(COMPACT_POINTER, Body(i) + rest) == Ok(i, rest)
  {
    assert Body(i) + rest == PutVarint(i.level) + (PutSlice(i.key) + rest);
    LevelRoundTrip(i.level, PutSlice(i.key) + rest);
    SliceRoundTrip(i.key, rest);
  }

  lemma DeletionRoundTrip(i: Item, rest: Bytes)
    requires ItemFits(i) && i.DeletedFile?
    ensures GetBody(DELETED_FILE, Body(i) + rest) == Ok(i, rest)
  {
    assert Body(i) + rest == PutVarint(i.level) + (PutVarint(i.number) + rest);
    LevelRoundTrip(i.level, PutVarint(i.number) + rest);
    Varint64RoundTrip(i.number, rest);
  }

  lemma NewFileRoundTrip(level: nat, f: FileRecord, body: Bytes, rest: Bytes)
    requires ItemFits(NewFile(level, f)) && body == Body(NewFile(level, f))
    ensures GetNewFile(body + rest) == Ok(NewFile(level, f), rest)
  {
    NewFileBytes(level, f, rest);
    FileRoundTrip(f, rest);
    LevelThenFile(level, f, FileTail(f, rest), rest);
  }

  function FileTail(f: FileRecord, rest: Bytes): Bytes {
    PutVarint(f.number) + (PutVarint(f.size) + (PutSlice(f.smallest) + (PutSlice(f.largest) + rest)))
  }

  lemma NewFileBytes(level: nat, f: FileRecord, rest: Bytes)
    ensures Body(NewFile(level, f)) + rest == PutVarint(level) + FileTail(f, rest)
  {
    var n, s, lo, hi := PutVarint(f.number), PutVarint(f.size), PutSlice(f.smallest), PutSlice(f.largest);
    Associative(PutVarint(level), n + (s + (lo + hi)), rest);
    Associative(n, s + (lo + hi), rest);
    Associative(s, lo + hi, rest);
    Associative(lo, hi, rest);
  }

  lemma LevelThenFile(level: nat, f: FileRecord, tail: Bytes, rest: Bytes)
    requires level < NUM_LEVELS && GetFile(tail) == Ok(f, rest)
    ensures GetNewFile(PutVarint(level) + tail) == Ok(NewFile(level, f), rest)
  {
    LevelRoundTrip(level, tail);
  }

  lemma FileCase(input: Bytes)
    ensures GetBody(NEW_FILE, input) == GetNewFile(input)
  {
    hide GetNewFile, GetVarint32, GetVarint64, GetSlice, GetLevel;
  }

  lemma NameCase(i: Item, rest: Bytes)
    requires ItemFits(i) && i.Comparator?
    ensures GetBody(COMPARATOR, Body(i) + rest) == Ok(i, rest)
  {
    SliceRoundTrip(i.name, rest);
  }

  lemma NumberCase(i: Item, rest: Bytes)
    requires ItemFits(i) && (i.LogNumber? || i.PrevLogNumber? || i.NextFileNumber? || i.LastSequence?)
    ensures GetBody(TagOf(i), Body(i) + rest) == Ok(i, rest)
  {
    Varint64RoundTrip(i.number, rest);
  }

  lemma BodyRoundTrip(i: Item, rest: Bytes)
    requires ItemFits(i)
    ensures GetBody(TagOf(i), Body(i) + rest) == Ok(i, rest)
  {
    match i
    case Comparator(_) => NameCase(i, rest);
    case CompactPointer(_, _) => PointerRoundTrip(i, rest);
    case DeletedFile(_, _) => DeletionRoundTrip(i, rest);
    case NewFile(level, f) =>
      NewFileRoundTrip(level, f, Body(i), rest);
      FileCase(Body(i) + rest);
    case _ => NumberCase(i, rest);
  }

  // ---------- decoding an edit ----------

  predicate PairLess(a: (nat, nat), b: (nat, nat)) {
    a.0 < b.0 || (a.0 == b.0 && a.1 < b.1)
  }

  /** By level, then by number. */
  lemma PairOrder(a: (nat, nat), b: (nat, nat))
    requires a.1 < TWO64 && b.1 < TWO64
    ensures PairLess(a, b) <==> a.0 * TWO64 + a.1 < b.0 * TWO64 + b.1
  {
  }

  /** Insertion into the ordered set of deleted files. */
  function InsertPair(s: seq<(nat, nat)>, p: (nat, nat)): seq<(nat, nat)> {
    if s == [] || PairLess(p, s[0]) then [p] + s
    else if s[0] == p then s
    else [s[0]] + InsertPair(s[1..], p)
  }

  ghost predicate Ascending(s: seq<(nat, nat)>) {
    forall i, j :: 0 <= i < j < |s| ==> PairLess(s[i], s[j])
  }

  function ApplyItem(e: VersionEdit, i: Item): VersionEdit {
    match i
    case Comparator(name) => e.(comparator := Some(name))
    case LogNumber(n) => e.(logNumber := Some(n))
    case PrevLogNumber(n) => e.(prevLogNumber := Some(n))
    case NextFileNumber(n) => e.(nextFileNumber := Some(n))
    case LastSequence(n) => e.(lastSequence := Some(n))
    case CompactPointer(level, key) => e.(compactPointers := e.compactPointers + [(level, key)])
    case DeletedFile(level, number) => e.(deletedFiles := InsertPair(e.deletedFiles, (level, number)))
    case NewFile(level, f) => e.(newFiles := e.newFiles + [(level, f)])
  }

  function ApplyItems(e: VersionEdit, items: seq<Item>): VersionEdit {
    if items == [] then e else ApplyItem(ApplyItems(e, items[..|items| - 1]), items[|items| - 1])
  }

  lemma {:induction false} ApplyConcat(e: VersionEdit, a: seq<Item>, b: seq<Item>)
    ensures ApplyItems(e, a + b) == ApplyItems(ApplyItems(e, a), b)
    decreases |b|
  {
    if b == [] {
      assert a + b == a;
    } else {
      assert (a + b)[..|a + b| - 1] == a + b[..|b| - 1];
      ApplyConcat(e, a, b[..|b| - 1]);
    }
  }

  /** DecodeFrom: tags and bodies until no tag can be read; anything left over is an error. */
  function Decode(e: VersionEdit, input: Bytes): Option<VersionEdit>
    decreases |input|
  {
    match GetVarint32(input)
    case Fail => if input == [] then Some(e) else None
    case Ok(tag, rest) =>
      match GetBody(tag, rest)
      case Fail => None
      case Ok(item, rest') => Decode(ApplyItem(e, item), rest')
  }

  method DecodeFrom(e: VersionEdit, src: Bytes) returns (r: Option<VersionEdit>)
    ensures r == Decode(Clear(e), src)
  {
    var edit, input, bad := Clear(e), src, false;
    while !bad && GetVarint32(input).Ok?
      invariant Decode(Clear(e), src) == if bad then None else Decode(edit, input)
      decreases if bad then 0 else 1, |input|
    {
      var tag := GetVarint32(input);
      var body := GetBody(tag.value, tag.rest);
      if body.Ok? {
        edit, input := ApplyItem(edit, body.value), body.rest;
      } else {
        bad := true;
      }
    }
    r := if bad || input != [] then None else Some(edit);
  }

  method AppendItems(items: seq<Item>, dst: Bytes) returns (r: Bytes)
    ensures r == dst + EncodeItems(items)
  {
    r := dst;
    for i := 0 to |items|
      invariant r == dst + EncodeItems(items[..i])
    {
      r := AppendItem(r, items[i]);
      EncodeMore(dst, items, i);
    }
    assert items[..|items|] == items;
  }

  method AppendItem(dst: Bytes, i: Item) returns (r: Bytes)
    ensures r == dst + EncodeItem(i)
  {
    r := dst + EncodeItem(i);
  }

  lemma EncodeMore(dst: Bytes, items: seq<Item>, i: nat)
    requires i < |items|
    ensures dst + EncodeItems(items[..i]) + EncodeItem(items[i]) == dst + EncodeItems(items[..i + 1])
  {
    assert items[..i + 1] == items[..i] + [items[i]];
    EncodeSnoc(items[..i], items[i]);
  }

  method EncodeTo(e: VersionEdit, dst: Bytes) returns (r: Bytes)
    ensures r == dst + EncodeItems(Items(e))
  {
    r := AppendItems(Items(e), dst);
  }

  // ---------- round trip ----------

  ghost predicate AllFit(items: seq<Item>) {
    forall i :: 0 <= i < |items| ==> ItemFits(items[i])
  }

  lemma ItemSplits(i: Item, rest: Bytes)
    requires ItemFits(i)
    ensures GetVarint32(EncodeItem(i) + rest) == Ok(TagOf(i), Body(i) + rest)
  {
    assert EncodeItem(i) + rest == PutVarint(TagOf(i)) + (Body(i) + rest);
    Varint32RoundTrip(TagOf(i), Body(i) + rest);
  }

  lemma {:induction false} DecodeItems(e: VersionEdit, items: seq<Item>, rest: Bytes)
    requires AllFit(items)
    ensures Decode(e, EncodeItems(items) + rest) == Decode(ApplyItems(e, items), rest)
    decreases |items|
  {
    if items == [] {
      assert EncodeItems(items) + rest == rest;
    } else {
      var init, last := items[..|items| - 1], items[|items| - 1];
      assert EncodeItems(items) + rest == EncodeItems(init) + (EncodeItem(last) + rest);
      DecodeItems(e, init, EncodeItem(last) + rest);
      ItemSplits(last, rest);
      BodyRoundTrip(last, rest);
    }
  }

  lemma {:induction false} AddPointers(e: VersionEdit, ps: seq<(nat, Bytes)>)
    ensures ApplyItems(e, Pointers(ps)) == e.(compactPointers := e.compactPointers + ps)
    decreases |ps|
  {
    if ps == [] {
    } else {
      var init := ps[..|ps| - 1];
      AddPointers(e, init);
      assert Pointers(ps)[..|ps| - 1] == Pointers(init);
      assert e.compactPointers + init + [ps[|ps| - 1]] == e.compactPointers + ps;
    }
  }

  lemma {:induction false} AddNewFiles(e: VersionEdit, fs: seq<(nat, FileRecord)>)
    ensures ApplyItems(e, Files(fs)) == e.(newFiles := e.newFiles + fs)
    decreases |fs|
  {
    if fs == [] {
    } else {
      var init := fs[..|fs| - 1];
      AddNewFiles(e, init);
      assert Files(fs)[..|fs| - 1] == Files(init);
      assert e.newFiles + init + [fs[|fs| - 1]] == e.newFiles + fs;
    }
  }

  lemma {:induction false} InsertLast(s: seq<(nat, nat)>, p: (nat, nat))
    requires forall i :: 0 <= i < |s| ==> PairLess(s[i], p)
    ensures InsertPair(s, p) == s + [p]
  {
    if s == [] {
    } else {
      InsertLast(s[1..], p);
    }
  }

  lemma {:induction false} AddDeleted(e: VersionEdit, ds: seq<(nat, nat)>)
    requires Ascending(ds) && e.deletedFiles == []
    ensures ApplyItems(e, Deletions(ds)) == e.(deletedFiles := ds)
    decreases |ds|
  {
    if ds == [] {
    } else {
      var init := ds[..|ds| - 1];
      AddDeleted(e, init);
      assert Deletions(ds)[..|ds| - 1] == Deletions(init);
      InsertLast(init, ds[|ds| - 1]);
      assert init + [ds[|ds| - 1]] == ds;
    }
  }

  lemma ItemsRebuild(e0: VersionEdit, e: VersionEdit)
    requires Ascending(e.deletedFiles)
    ensures ApplyItems(Clear(e0), Items(e)) == e.(compactPointers := e0.compactPointers + e.compactPointers)
  {
    var ps, ds, fs := Pointers(e.compactPointers), Deletions(e.deletedFiles), Files(e.newFiles);
    var e1 := e.(compactPointers := e0.compactPointers, deletedFiles := [], newFiles := []);
    ScalarsRebuild(Clear(e0), e);
    ApplyConcat(Clear(e0), Scalars(e), ps + (ds + fs));
    ApplyConcat(e1, ps, ds + fs);
    AddPointers(e1, e.compactPointers);
    var e2 := e1.(compactPointers := e0.compactPointers + e.compactPointers);
    ApplyConcat(e2, ds, fs);
    AddDeleted(e2, e.deletedFiles);
    AddNewFiles(e2.(deletedFiles := e.deletedFiles), e.newFiles);
  }

  lemma ApplyOne(e: VersionEdit, a: seq<Item>, b: seq<Item>)
    requires |b| <= 1
    ensures ApplyItems(e, a + b) == if b == [] then ApplyItems(e, a) else ApplyItem(ApplyItems(e, a), b[0])
  {
    if b == [] {
      assert a + b == a;
    } else {
      assert (a + b)[..|a|] == a && (a + b)[|a|] == b[0];
    }
  }

  lemma ApplyNone(e: VersionEdit)
    ensures ApplyItems(e, []) == e
  {
  }

  lemma NamesRebuild(c: VersionEdit, e: VersionEdit)
    requires c == FRESH.(compactPointers := c.compactPointers)
    ensures ApplyItems(c, NameItems(e)) ==
      c.(comparator := e.comparator, logNumber := e.logNumber, prevLogNumber := e.prevLogNumber)
  {
    hide ApplyItems;
    var i1 := if e.comparator.Some? then [Comparator(e.comparator.value)] else [];
    var i2 := if e.logNumber.Some? then [LogNumber(e.logNumber.value)] else [];
    var i3 := if e.prevLogNumber.Some? then [PrevLogNumber(e.prevLogNumber.value)] else [];
    ApplyNone(c);
    ApplyOne(c, [], i1);
    assert [] + i1 == i1 && ApplyItems(c, i1) == c.(comparator := e.comparator);
    ApplyOne(c, i1, i2);
    ApplyOne(c, i1 + i2, i3);
  }

  lemma ScalarsRebuild(c: VersionEdit, e: VersionEdit)
    requires c == FRESH.(compactPointers := c.compactPointers)
    ensures ApplyItems(c, Scalars(e)) == e.(compactPointers := c.compactPointers, deletedFiles := [], newFiles := [])
  {
    hide ApplyItems;
    NamesRebuild(c, e);
    var names := NameItems(e);
    var i4 := if e.nextFileNumber.Some? then [NextFileNumber(e.nextFileNumber.value)] else [];
    var i5 := if e.lastSequence.Some? then [LastSequence(e.lastSequence.value)] else [];
    ApplyOne(c, names, i4);
    ApplyOne(c, names + i4, i5);
    assert Scalars(e) == names + i4 + i5;
  }

  /** Decoding what was encoded gives the edit back, except that compaction pointers the target held
      before are kept in front. */
  lemma EditRoundTrip(e0: VersionEdit, e: VersionEdit)
    requires Ascending(e.deletedFiles) && AllFit(Items(e))
    ensures Decode(Clear(e0), EncodeItems(Items(e)))
      == Some(e.(compactPointers := e0.compactPointers + e.compactPointers))
    ensures Decode(Clear(e0), EncodeItems(Items(e))) == Some(e) <==> e0.compactPointers == []
  {
    DecodeItems(Clear(e0), Items(e), []);
    assert EncodeItems(Items(e)) + [] == EncodeItems(Items(e));
    ItemsRebuild(e0, e);
    var both := e0.compactPointers + e.compactPointers;
    assert |both| == |e0.compactPointers| + |e.compactPointers|;
    assert e0.compactPointers == [] ==> both == e.compactPointers;
  }
}
