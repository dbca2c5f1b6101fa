/** Tables (table/table_builder.cc, table/table.cc): building a table from ascending internal keys,
    and looking a key up through the shortened index keys and the filter.  Data and index blocks are
    taken as the entries their iterators show; sizes in bytes are a parameter.
  */
module Table {
  import opened Keys
  import opened Coding
  import opened Cursors
  import opened Separators
  import opened Bloom
  import opened Block
  import opened FilterBlock
  import opened TwoLevel

  // ---------- block handles ----------

  datatype BlockHandle = BlockHandle(offset: nat, size: nat)

  function EncodeHandle(h: BlockHandle): Bytes {
    PutVarint(h.offset) + PutVarint(h.size)
  }

  function DecodeHandle(input: Bytes): Parsed<BlockHandle> {
    match GetVarint64(input)
    case Fail => Fail
    case Ok(offset, rest) =>
      match GetVarint64(rest)
      case Fail => Fail
      case Ok(size, rest') => Ok(BlockHandle(offset, size), rest')
  }

  lemma HandleRoundTrip(h: BlockHandle, rest: Bytes)
    requires h.offset < TWO64 && h.size < TWO64
    ensures DecodeHandle(EncodeHandle(h) + rest) == Ok(h, rest)
  {
    assert EncodeHandle(h) + rest == PutVarint(h.offset) + (PutVarint(h.size) + rest);
    Varint64RoundTrip(h.offset, PutVarint(h.size) + rest);
    Varint64RoundTrip(h.size, rest);
  }

  // ---------- finished tables ----------

  /** The index, the data blocks by offset, and the filter block. */
  datatype TableFile = TableFile(index: seq<Entry>, blocks: map<nat, seq<Entry>>, filter: Option<Bytes>)

  /** BlockReader: the block behind an index value. */
  function ReadBlock(blocks: map<nat, seq<Entry>>, handle: Bytes): seq<Entry> {
    match DecodeHandle(handle)
    case Fail => []
    case Ok(h, _) => if h.offset in blocks then blocks[h.offset] else []
  }

  function SourceOf(t: TableFile): Source {
    Source(t.index, h => ReadBlock(t.blocks, h))
  }

  // ---------- the result of a lookup ----------

  datatype Outcome = NotFound | Found(value: Bytes) | Deleted

  /** SaveValue: an entry counts only if it is for the user key looked up. */
  function Save(e: Option<Entry>, user: UserKey): Outcome {
    if e.Some? && e.value.key.user == user then
      if e.value.key.kind.Value? then Found(e.value.value) else Deleted
    else NotFound
  }

  /** A linear scan for the first entry at or after (user, s). */
  function Scan(run: seq<Entry>, user: UserKey, s: nat): Outcome {
    Save(Lookup(run, user, s), user)
  }

  /** The newest entry a lookup of (user, s) may see; under one sequence number a value comes before
      a deletion marker. */
  ghost predicate Newest(added: seq<Entry>, user: UserKey, s: nat, e: Entry) {
    var all := iset o | o in added;
    IsNewest(all, user, s, e) && forall o :: IsNewest(all, user, s, o) && o.key.kind.Value? ==> e.key.kind.Value?
  }

  ghost predicate FindsValue(added: seq<Entry>, user: UserKey, s: nat, value: Bytes) {
    exists e :: Newest(added, user, s, e) && e.key.kind.Value? && e.value == value
  }

  ghost predicate FindsDeletion(added: seq<Entry>, user: UserKey, s: nat) {
    exists e :: Newest(added, user, s, e) && e.key.kind.Deletion?
  }

  /** What a lookup must come to: the newest entry's value, a deletion if it is a deletion marker, and
      nothing exactly if no entry matches. */
  ghost predicate Answers(added: seq<Entry>, user: UserKey, s: nat, r: Outcome) {
    (forall v :: r == Found(v) <==> FindsValue(added, user, s, v)) &&
    (r == Deleted <==> FindsDeletion(added, user, s)) &&
    (r == NotFound <==> forall e :: e in added ==> !Matches(e, user, s))
  }

  lemma LookupNewest(added: seq<Entry>, user: UserKey, s: nat, e: Entry)
    requires Sorted(added) && Lookup(added, user, s) == Some(e)
    ensures Newest(added, user, s, e) && forall o :: Newest(added, user, s, o) ==> o == e
  {
    LookupIsNewest(added, user, s);
    var all := iset o | o in added;
    var i := SeekIndex(added, SeekKey(user, s));
    forall o | IsNewest(all, user, s, o) ensures o.key.kind.Value? ==> e.key.kind.Value? {
      var j :| 0 <= j < |added| && added[j] == o;
    }
    forall o | Newest(added, user, s, o) ensures o == e {
      var j :| 0 <= j < |added| && added[j] == o;
      assert IsNewest(all, user, s, o) && o.key == e.key;
    }
  }

  lemma ScanAnswers(added: seq<Entry>, user: UserKey, s: nat)
    requires Sorted(added)
    ensures Answers(added, user, s, Scan(added, user, s))
  {
    LookupIsNewest(added, user, s);
    var found := Lookup(added, user, s);
    if found.Some? {
      LookupNewest(added, user, s, found.value);
      assert found.value in added && Matches(found.value, user, s);
    } else {
      forall e ensures !Newest(added, user, s, e) {
      }
    }
  }

  // ---------- the shape of a table ----------

  /** How the added entries are cut into blocks: block `i` is `added[cuts[i]..cuts[i + 1]]` and is
      written at file offset `offs[i]`. */
  ghost predicate Cut(added: seq<Entry>, cuts: seq<nat>, offs: seq<nat>) {
    Sorted(added) && |cuts| == |offs| + 1 && cuts[0] == 0 && cuts[|offs|] <= |added| &&
    (forall i, j :: 0 <= i < j < |cuts| ==> cuts[i] < cuts[j]) &&
    forall i, j :: 0 <= i < j < |offs| ==> offs[i] < offs[j]
  }

  ghost predicate BlockAtOffset(blocks: map<nat, seq<Entry>>, added: seq<Entry>, cuts: seq<nat>, offs: seq<nat>, i: nat)
    requires Cut(added, cuts, offs) && i < |offs|
  {
    cuts[i] < cuts[i + 1] <= |added| && offs[i] in blocks && blocks[offs[i]] == added[cuts[i]..cuts[i + 1]]
  }

  /** An index key is at or after the last key before `cut`, and before all keys from `cut` on; when it is not
      that last key itself, even its user key is before theirs. */
  ghost predicate KeySeparates(key: InternalKey, added: seq<Entry>, cut: nat)
    requires 0 < cut <= |added|
  {
    !Less(key, added[cut - 1].key) &&
    forall q :: cut <= q < |added| ==>
      Less(key, added[q].key) && (key == added[cut - 1].key || key.user < added[q].key.user)
  }

  ghost predicate IndexEntryAt(e: Entry, added: seq<Entry>, cuts: seq<nat>, offs: seq<nat>, i: nat, bound: nat := TWO64)
    requires Cut(added, cuts, offs) && i < |offs|
  {
    0 < cuts[i + 1] <= |added| && KeySeparates(e.key, added, cuts[i + 1]) &&
    exists size: nat :: size < bound && e.value == EncodeHandle(BlockHandle(offs[i], size))
  }

  /** Some user key of the filter is the one at this position. */
  ghost predicate Holds(users: seq<Bytes>, user: UserKey) {
    exists u :: u in users && Position(u) == user
  }

  /** The filter block answers yes for `u` at a data block's offset. */
  ghost predicate FilterSaysYes(p: Policy, contents: Bytes, offset: nat, u: Bytes)
    requires PolicyOk(p)
  {
    var r := OpenFilter(contents); var index := ShiftRight(offset, r.baseLg);
    index < r.num ==> r.arrayOffset + 4 * r.num + 4 <= |r.data| && EntryMayMatch(r, p, index, u)
  }

  ghost predicate FilterCovers(p: Policy, contents: Bytes, added: seq<Entry>, cuts: seq<nat>, offs: seq<nat>)
    requires PolicyOk(p) && Cut(added, cuts, offs)
  {
    (var r := OpenFilter(contents); r.num > 0 ==> r.arrayOffset + 4 * r.num + 4 <= |r.data|) &&
    forall i, q, u {:trigger added[q], FilterSaysYes(p, contents, offs[i], u)} ::
      0 <= i < |offs| && cuts[i] <= q < cuts[i + 1] <= |added| && added[q].key.user == Position(u) ==>
      FilterSaysYes(p, contents, offs[i], u)
  }

  ghost predicate SortedBlocks(blocks: map<nat, seq<Entry>>) {
    forall o :: o in blocks ==> Sorted(blocks[o])
  }

  /** A finished table of the entries `added`. */
  ghost predicate TableOk(t: TableFile, p: Policy, added: seq<Entry>, cuts: seq<nat>, offs: seq<nat>) {
    Cut(added, cuts, offs) && cuts[|offs|] == |added| && |t.index| == |offs| && PolicyOk(p) && SortedBlocks(t.blocks) &&
    (forall i :: 0 <= i < |offs| ==> offs[i] < TWO64 && BlockAtOffset(t.blocks, added, cuts, offs, i)) &&
    (forall i :: 0 <= i < |offs| ==> IndexEntryAt(t.index[i], added, cuts, offs, i)) &&
    (t.filter.Some? ==> FilterCovers(p, t.filter.value, added, cuts, offs))
  }

  // ---------- looking up ----------

  lemma IndexSorted(t: TableFile, p: Policy, added: seq<Entry>, cuts: seq<nat>, offs: seq<nat>)
    requires TableOk(t, p, added, cuts, offs)
    ensures Sorted(t.index)
  {
    forall i, j | 0 <= i < j < |t.index| ensures Less(t.index[i].key, t.index[j].key) {
      assert IndexEntryAt(t.index[i], added, cuts, offs, i) && IndexEntryAt(t.index[j], added, cuts, offs, j);
      assert cuts[i + 1] < cuts[j + 1];
      assert Less(t.index[i].key, added[cuts[j + 1] - 1].key);
    }
  }

  lemma HandleReads(t: TableFile, p: Policy, added: seq<Entry>, cuts: seq<nat>, offs: seq<nat>, i: nat)
    requires TableOk(t, p, added, cuts, offs) && i < |offs|
    ensures DecodeHandle(t.index[i].value).Ok? && DecodeHandle(t.index[i].value).value.offset == offs[i]
    ensures cuts[i] < cuts[i + 1] <= |added| && ReadBlock(t.blocks, t.index[i].value) == added[cuts[i]..cuts[i + 1]]
  {
    assert IndexEntryAt(t.index[i], added, cuts, offs, i) && BlockAtOffset(t.blocks, added, cuts, offs, i);
    var size: nat :| size < TWO64 && t.index[i].value == EncodeHandle(BlockHandle(offs[i], size));
    HandleRoundTrip(BlockHandle(offs[i], size), []);
    assert EncodeHandle(BlockHandle(offs[i], size)) + [] == t.index[i].value;
  }

  /** Seeking the index and then the block it names reaches the same place as seeking all entries. */
  lemma SeekAgrees(t: TableFile, p: Policy, added: seq<Entry>, cuts: seq<nat>, offs: seq<nat>, target: InternalKey)
    requires TableOk(t, p, added, cuts, offs)
    ensures var i := SeekIndex(t.index, target);
      if i < |offs| then
        cuts[i] < cuts[i + 1] <= |added| &&
        SeekIndex(added, target) == cuts[i] + SeekIndex(added[cuts[i]..cuts[i + 1]], target)
      else SeekIndex(added, target) == |added|
  {
    var i := SeekIndex(t.index, target);
    EarlierBlocks(t, p, added, cuts, offs, target, i);
    if i < |offs| {
      InsideBlock(t, p, added, cuts, offs, target, i);
    } else {
      SeekUnique(added, target, |added|);
    }
  }

  lemma EarlierBlocks(t: TableFile, p: Policy, added: seq<Entry>, cuts: seq<nat>, offs: seq<nat>, target: InternalKey,
                      i: nat)
    requires TableOk(t, p, added, cuts, offs) && i == SeekIndex(t.index, target)
    ensures cuts[i] <= |added| && forall q :: 0 <= q < cuts[i] ==> Less(added[q].key, target)
  {
    if i > 0 {
      assert IndexEntryAt(t.index[i - 1], added, cuts, offs, i - 1);
      EarlierThan(added, cuts[i], t.index[i - 1].key, target);
    }
  }

  lemma InsideBlock(t: TableFile, p: Policy, added: seq<Entry>, cuts: seq<nat>, offs: seq<nat>, target: InternalKey,
                    i: nat)
    requires TableOk(t, p, added, cuts, offs) && i < |offs| && !Less(t.index[i].key, target)
    requires forall q :: 0 <= q < cuts[i] <= |added| ==> Less(added[q].key, target)
    ensures cuts[i] < cuts[i + 1] <= |added|
    ensures SeekIndex(added, target) == cuts[i] + SeekIndex(added[cuts[i]..cuts[i + 1]], target)
  {
    assert BlockAtOffset(t.blocks, added, cuts, offs, i) && IndexEntryAt(t.index[i], added, cuts, offs, i);
    BlockPlace(added, cuts[i], cuts[i + 1], t.index[i].key, target, SeekIndex(added[cuts[i]..cuts[i + 1]], target));
  }

  lemma EarlierThan(added: seq<Entry>, cut: nat, key: InternalKey, target: InternalKey)
    requires Sorted(added) && 0 < cut <= |added| && KeySeparates(key, added, cut) && Less(key, target)
    ensures forall q :: 0 <= q < cut ==> Less(added[q].key, target)
  {
    forall q | 0 <= q < cut ensures Less(added[q].key, target) {
      assert q < cut - 1 ==> Less(added[q].key, added[cut - 1].key);
    }
  }

  /** Within its block, and at the block's end, the search stands where it should among all entries. */
  lemma BlockPlace(added: seq<Entry>, a: nat, b: nat, key: InternalKey, target: InternalKey, j: nat)
    requires Sorted(added) && a < b <= |added| && j == SeekIndex(added[a..b], target)
    requires forall q :: 0 <= q < a ==> Less(added[q].key, target)
    requires KeySeparates(key, added, b) && !Less(key, target)
    ensures SeekIndex(added, target) == a + j
  {
    forall q | a <= q < a + j ensures Less(added[q].key, target) {
      assert added[q] == added[a..b][q - a];
    }
    if a + j < b {
      assert added[a + j] == added[a..b][j];
    }
    SeekUnique(added, target, a + j);
  }

  /** When the block holds nothing at or after the target, no entry of the table is for its user key
      at its snapshot. */
  lemma PastBlockIsAbsent(t: TableFile, p: Policy, added: seq<Entry>, cuts: seq<nat>, offs: seq<nat>, user: UserKey,
                          s: nat, i: nat)
    requires TableOk(t, p, added, cuts, offs) && s <= MAX_SEQUENCE && i < |offs|
    requires !Less(t.index[i].key, SeekKey(user, s))
    requires 0 < cuts[i + 1] <= |added| && Less(added[cuts[i + 1] - 1].key, SeekKey(user, s))
    ensures forall q :: cuts[i + 1] <= q < |added| ==> added[q].key.user != user
  {
    assert IndexEntryAt(t.index[i], added, cuts, offs, i);
  }

  /** InternalGet: the same outcome as a linear scan of everything that was added. */
  method InternalGet(t: TableFile, p: Policy, k: Bytes, s: nat, ghost added: seq<Entry>, ghost cuts: seq<nat>,
                     ghost offs: seq<nat>)
    returns (r: Outcome)
    requires TableOk(t, p, added, cuts, offs) && s <= MAX_SEQUENCE
    ensures r == Scan(added, Position(k), s) && Answers(added, Position(k), s, r)
  {
    ScanAnswers(added, Position(k), s);
    var target := SeekKey(Position(k), s);
    IndexSorted(t, p, added, cuts, offs);
    SeekAgrees(t, p, added, cuts, offs, target);
    var iiter := new Cursor(t.index);
    iiter.Seek(target);
    if iiter.pos.None? {
      return NotFound;
    }
    ghost var i := iiter.pos.value;
    HandleReads(t, p, added, cuts, offs, i);
    BlockOutcome(t, p, added, cuts, offs, k, s, i);
    var handle := DecodeHandle(iiter.Value());
    if t.filter.Some? && handle.Ok? {
      var may := FilterMayMatch(OpenFilter(t.filter.value), p, handle.value.offset, k);
      if !may {
        ghost var j := SeekIndex(added[cuts[i]..cuts[i + 1]], target);
        if j < cuts[i + 1] - cuts[i] { DeniedIsAbsent(t, p, added, cuts, offs, k, i, j); }
        return NotFound;
      }
    }
    var block := ReadBlock(t.blocks, iiter.Value());
    BlockSorted(added, cuts[i], cuts[i + 1]);
    var blockIter := new Cursor(block);
    blockIter.Seek(target);
    if blockIter.pos.Some? {
      r := Save(Some(Entry(blockIter.Key(), blockIter.Value())), Position(k));
    } else {
      r := NotFound;
    }
  }

  lemma BlockSorted(added: seq<Entry>, a: nat, b: nat)
    requires Sorted(added) && a <= b <= |added|
    ensures Sorted(added[a..b])
  {
  }

  /** What the block search says is what the scan says; and if the filter denies the key, the scan
      finds nothing. */
  lemma BlockOutcome(t: TableFile, p: Policy, added: seq<Entry>, cuts: seq<nat>, offs: seq<nat>, k: Bytes, s: nat,
                     i: nat)
    requires TableOk(t, p, added, cuts, offs) && s <= MAX_SEQUENCE
    requires i < |offs| && cuts[i] < cuts[i + 1] <= |added| && i == SeekIndex(t.index, SeekKey(Position(k), s))
    ensures var block := added[cuts[i]..cuts[i + 1]]; var j := SeekIndex(block, SeekKey(Position(k), s));
      Scan(added, Position(k), s) == if j < |block| then Save(Some(block[j]), Position(k)) else NotFound
  {
    hide FilterCovers, PolicyOk, SortedBlocks, IndexEntryAt;
    var target := SeekKey(Position(k), s);
    var block := added[cuts[i]..cuts[i + 1]];
    var j := SeekIndex(block, target);
    SeekAgrees(t, p, added, cuts, offs, target);
    if j < |block| {
      ScanAt(added, Position(k), s, cuts[i] + j);
    } else {
      LastOfBlock(added, cuts[i], cuts[i + 1], target);
      PastBlockIsAbsent(t, p, added, cuts, offs, Position(k), s, i);
      ScanAt(added, Position(k), s, cuts[i + 1]);
    }
  }

  lemma LastOfBlock(added: seq<Entry>, a: nat, b: nat, target: InternalKey)
    requires a < b <= |added| && SeekIndex(added[a..b], target) == b - a
    ensures Less(added[b - 1].key, target)
  {
    assert added[a..b][b - 1 - a] == added[b - 1];
  }

  lemma ScanAt(added: seq<Entry>, user: UserKey, s: nat, place: nat)
    requires place == SeekIndex(added, SeekKey(user, s))
    ensures Scan(added, user, s) == if place < |added| then Save(Some(added[place]), user) else NotFound
  {
  }

  /** An entry the filter denies is not in the block. */
  lemma DeniedIsAbsent(t: TableFile, p: Policy, added: seq<Entry>, cuts: seq<nat>, offs: seq<nat>, k: Bytes, i: nat,
                       j: nat)
    requires TableOk(t, p, added, cuts, offs) && t.filter.Some? && i < |offs| && cuts[i] < cuts[i + 1] <= |added|
    requires j < cuts[i + 1] - cuts[i] && !FilterSaysYes(p, t.filter.value, offs[i], k)
    ensures added[cuts[i]..cuts[i + 1]][j].key.user != Position(k)
  {
    assert added[cuts[i]..cuts[i + 1]][j] == added[cuts[i] + j];
  }

  // ---------- iterating ----------

  lemma {:induction false} FlatIsPrefix(t: TableFile, p: Policy, added: seq<Entry>, cuts: seq<nat>, offs: seq<nat>,
                                        i: nat)
    requires TableOk(t, p, added, cuts, offs) && i <= |offs|
    ensures cuts[i] <= |added| && Flat(SourceOf(t), i) == added[..cuts[i]]
  {
    if i == 0 {
    } else {
      FlatIsPrefix(t, p, added, cuts, offs, i - 1);
      hide TableOk, DecodeHandle;
      HandleReads(t, p, added, cuts, offs, i - 1);
      JoinSlices(added, cuts[i - 1], cuts[i]);
    }
  }

  lemma JoinSlices(run: seq<Entry>, a: nat, b: nat)
    requires a <= b <= |run|
    ensures run[..a] + run[a..b] == run[..b]
  {
  }

  lemma KeyOfBlock(t: TableFile, p: Policy, added: seq<Entry>, cuts: seq<nat>, offs: seq<nat>, i: nat, j: nat, e: Entry)
    requires TableOk(t, p, added, cuts, offs) && i < |offs| && j < |offs| && e in ReadBlock(t.blocks, t.index[j].value)
    ensures j == i ==> !Less(t.index[i].key, e.key)
    ensures i < j ==> Less(t.index[i].key, e.key)
  {
    hide TableOk, KeySeparates, Less, ReadBlock;
    HandleReads(t, p, added, cuts, offs, j);
    KeyFacts(t, p, added, cuts, offs, i, j);
    KeyOfSlice(added, t.index[i].key, cuts[i + 1], cuts[j], cuts[j + 1], e);
  }

  lemma KeyFacts(t: TableFile, p: Policy, added: seq<Entry>, cuts: seq<nat>, offs: seq<nat>, i: nat, j: nat)
    requires TableOk(t, p, added, cuts, offs) && i < |offs| && j < |offs|
    ensures |t.index| == |offs| && |cuts| == |offs| + 1 && cuts[j] < cuts[j + 1] <= |added|
    ensures Sorted(added) && 0 < cuts[i + 1] <= |added| && KeySeparates(t.index[i].key, added, cuts[i + 1])
    ensures i < j ==> cuts[i + 1] <= cuts[j]
  {
    hide FilterCovers, PolicyOk, SortedBlocks, Less;
    assert IndexEntryAt(t.index[i], added, cuts, offs, i) && BlockAtOffset(t.blocks, added, cuts, offs, j);
  }

  lemma KeyOfSlice(added: seq<Entry>, key: InternalKey, cut: nat, a: nat, b: nat, e: Entry)
    requires Sorted(added) && 0 < cut <= |added| && KeySeparates(key, added, cut) && a <= b <= |added| &&
      e in added[a..b]
    ensures b == cut ==> !Less(key, e.key)
    ensures cut <= a ==> Less(key, e.key)
  {
    var q :| 0 <= q < |added[a..b]| && added[a..b][q] == e;
    assert added[a + q] == e;
    if b == cut {
      assert a + q < cut - 1 ==> Less(added[a + q].key, added[cut - 1].key);
    }
  }

  /** A two-level iterator over the finished table is a cursor over everything that was added. */
  lemma TableIterates(t: TableFile, p: Policy, added: seq<Entry>, cuts: seq<nat>, offs: seq<nat>)
    requires TableOk(t, p, added, cuts, offs)
    ensures Separated(SourceOf(t)) && All(SourceOf(t)) == added
  {
    var src := SourceOf(t);
    IndexSorted(t, p, added, cuts, offs);
    forall h ensures Sorted(src.open(h)) {
    }
    forall i, e | 0 <= i < |src.index| && e in TwoLevel.Block(src, i) ensures !Less(src.index[i].key, e.key) {
      KeyOfBlock(t, p, added, cuts, offs, i, i, e);
    }
    forall i, j, e | 0 <= i < j < |src.index| && e in TwoLevel.Block(src, j) ensures Less(src.index[i].key, e.key) {
      KeyOfBlock(t, p, added, cuts, offs, i, j, e);
    }
    FlatIsPrefix(t, p, added, cuts, offs, |offs|);
    assert added[..|added|] == added;
  }
}
