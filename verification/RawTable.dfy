/** Lookup in the bytes of a table (table/table.cc InternalGet over table/block.cc): index and data
    blocks are searched by block iterators whose keys are the bytes of internal keys.
  */
module RawTable {
  import opened Keys
  import opened Coding
  import opened Separators
  import opened Bloom
  import opened FilterBlock
  import opened Table
  import Block
  import BlockIter
  import Cursors
  import KeyBytes

  // ---------- blocks of internal keys ----------

  /** A built block of the entries, each under the bytes of a key that stands for its own. */
  ghost predicate Renders(block: Bytes, plan: Block.Plan, raw: seq<RawKey>, entries: seq<Entry>) {
    Block.PlanOk(plan) && block == Block.BlockBytes(plan) && |block| < TWO32 &&
    |raw| == |entries| == |plan.entries| && RawOk(raw) &&
    forall i :: 0 <= i < |entries| ==>
      Abs(raw[i]) == entries[i].key && plan.entries[i] == Block.Record(KeyBytes.Encode(raw[i]), entries[i].value)
  }

  ghost predicate RawOk(raw: seq<RawKey>) {
    forall i :: 0 <= i < |raw| ==> raw[i].sequence <= MAX_SEQUENCE
  }

  ghost predicate BlockHolds(block: Bytes, entries: seq<Entry>) {
    exists plan, raw :: Renders(block, plan, raw, entries)
  }

  lemma RendersOrdered(block: Bytes, plan: Block.Plan, raw: seq<RawKey>, entries: seq<Entry>)
    requires Renders(block, plan, raw, entries) && Sorted(entries)
    ensures BlockIter.Ordered(plan.entries, KeyBytes.Rank)
  {
    forall i, j | 0 <= i < j < |entries|
      ensures KeyBytes.Rank(plan.entries[i].key) < KeyBytes.Rank(plan.entries[j].key)
    {
      KeyBytes.RankIsOrder(raw[i], raw[j]);
    }
  }

  /** Seeking key bytes in the block finds the place of the key among the entries. */
  lemma SeekAgrees(block: Bytes, plan: Block.Plan, raw: seq<RawKey>, entries: seq<Entry>, target: RawKey)
    requires Renders(block, plan, raw, entries) && Sorted(entries) && target.sequence <= MAX_SEQUENCE
    ensures BlockIter.FirstAtLeast(plan.entries, KeyBytes.Rank, KeyBytes.Encode(target))
      == SeekIndex(entries, Abs(target))
  {
    var i := BlockIter.FirstAtLeast(plan.entries, KeyBytes.Rank, KeyBytes.Encode(target));
    var j := SeekIndex(entries, Abs(target));
    if i < j {
      KeyBytes.RankIsOrder(raw[i], target);
    } else if j < i {
      KeyBytes.RankIsOrder(raw[j], target);
    }
  }

  function KeyMove(move: Cursors.Move<RawKey>): Cursors.Move<Bytes> {
    match move
    case SeekToFirst => Cursors.SeekToFirst
    case SeekToLast => Cursors.SeekToLast
    case Seek(target) => Cursors.Seek(KeyBytes.Encode(target))
    case Next => Cursors.Next
    case Prev => Cursors.Prev
  }

  ghost function EntrySeek(entries: seq<Entry>): RawKey -> int {
    target => SeekIndex(entries, Abs(target))
  }

  /** The iterator stands over the records of the rendered entries. */
  ghost predicate Over(iter: BlockIter.BlockIter, plan: Block.Plan) reads iter {
    iter.Inv() && iter.view.entries == plan.entries && iter.rank == KeyBytes.Rank
  }

  method ApplyMove(iter: BlockIter.BlockIter, move: Cursors.Move<RawKey>, ghost block: Bytes, ghost plan: Block.Plan,
                   ghost raw: seq<RawKey>, ghost entries: seq<Entry>)
    requires Over(iter, plan) && Renders(block, plan, raw, entries) && Sorted(entries)
    requires move.Seek? ==> move.target.sequence <= MAX_SEQUENCE
    modifies iter
    ensures Over(iter, plan)
    ensures iter.Position() == Cursors.Step(|entries|, old(iter.Position()), move, EntrySeek(entries))
  {
    if move.Seek? { SeekAgrees(block, plan, raw, entries, move.target); }
    iter.Apply(KeyMove(move));
  }

  /** A block iterator over internal keys is a cursor over the entries. */
  method DriveBlock(iter: BlockIter.BlockIter, moves: seq<Cursors.Move<RawKey>>, ghost block: Bytes,
                    ghost plan: Block.Plan, ghost raw: seq<RawKey>, ghost entries: seq<Entry>)
    requires Over(iter, plan) && Renders(block, plan, raw, entries) && Sorted(entries)
    requires forall i :: 0 <= i < |moves| && moves[i].Seek? ==> moves[i].target.sequence <= MAX_SEQUENCE
    modifies iter
    ensures Over(iter, plan)
    ensures iter.Position() == Cursors.Run(|entries|, old(iter.Position()), moves, EntrySeek(entries))
  {
    for i := 0 to |moves|
      invariant Over(iter, plan)
      invariant iter.Position() == Cursors.Run(|entries|, old(iter.Position()), moves[..i], EntrySeek(entries))
    {
      assert moves[..i + 1][..i] == moves[..i];
      ApplyMove(iter, moves[i], block, plan, raw, entries);
    }
    assert moves[..|moves|] == moves;
  }

  /** The first entry of a block at or after the key, with its own key's bytes parsed again. */
  method SeekBlock(block: Bytes, target: RawKey, ghost entries: seq<Entry>) returns (found: Option<(RawKey, Bytes)>)
    requires BlockHolds(block, entries) && Sorted(entries) && target.sequence <= MAX_SEQUENCE
    ensures var i := SeekIndex(entries, Abs(target));
      if i < |entries| then
        found.Some? && Abs(found.value.0) == entries[i].key && found.value.1 == entries[i].value
      else found == None
  {
    ghost var plan, raw :| Renders(block, plan, raw, entries);
    RendersOrdered(block, plan, raw, entries);
    SeekAgrees(block, plan, raw, entries, target);
    var iter := new BlockIter.BlockIter(block, KeyBytes.Rank, plan);
    iter.Seek(KeyBytes.Encode(target));
    var record := iter.Current();
    if record.None? {
      return None;
    }
    KeyBytes.RoundTrip(raw[SeekIndex(entries, Abs(target))]);
    found := Some((KeyBytes.Parse(record.value.key), record.value.value));
  }

  // ---------- tables ----------

  datatype RawFile = RawFile(index: Bytes, blocks: map<nat, Bytes>, filter: Option<Bytes>)

  /** The bytes of a table: every block holds its entries. */
  ghost predicate FileHolds(f: RawFile, t: TableFile) {
    BlockHolds(f.index, t.index) && f.filter == t.filter && f.blocks.Keys == t.blocks.Keys &&
    forall o :: o in t.blocks ==> BlockHolds(f.blocks[o], t.blocks[o])
  }

  /** SaveValue, on a parsed key. */
  function SaveRaw(e: Option<(RawKey, Bytes)>, k: Bytes): Outcome {
    if e.Some? && e.value.0.user == k then
      if e.value.0.kind.Value? then Found(e.value.1) else Deleted
    else NotFound
  }

  lemma SaveAgrees(key: RawKey, e: Entry, k: Bytes)
    requires Abs(key) == e.key
    ensures SaveRaw(Some((key, e.value)), k) == Save(Some(e), Position(k))
  {
    BytewiseEmbedsInReals(key.user, k);
  }

  /** The place in the index, the block it names, and what the scan of everything would find. */
  lemma IndexPlace(t: TableFile, p: Policy, added: seq<Entry>, cuts: seq<nat>, offs: seq<nat>, k: Bytes, s: nat)
    requires TableOk(t, p, added, cuts, offs) && s <= MAX_SEQUENCE
    ensures Sorted(t.index) && Answers(added, Position(k), s, Scan(added, Position(k), s))
    ensures var i := SeekIndex(t.index, SeekKey(Position(k), s));
      if i == |t.index| then Scan(added, Position(k), s) == NotFound
      else
        DecodeHandle(t.index[i].value).Ok? && DecodeHandle(t.index[i].value).value.offset == offs[i] &&
        cuts[i] < cuts[i + 1] <= |added| && offs[i] in t.blocks && t.blocks[offs[i]] == added[cuts[i]..cuts[i + 1]]
  {
    hide Answers, IndexEntryAt, FilterCovers, Sorted, EncodeHandle, DecodeHandle;
    IndexSorted(t, p, added, cuts, offs);
    ScanAnswers(added, Position(k), s);
    var i := SeekIndex(t.index, SeekKey(Position(k), s));
    Table.SeekAgrees(t, p, added, cuts, offs, SeekKey(Position(k), s));
    if i < |t.index| {
      HandleReads(t, p, added, cuts, offs, i);
      assert BlockAtOffset(t.blocks, added, cuts, offs, i);
    }
  }

  /** What the filter says of the key: no only if the block does not have it. */
  method AskFilter(contents: Bytes, p: Policy, k: Bytes, s: nat, offset: nat, ghost t: TableFile,
                   ghost added: seq<Entry>, ghost cuts: seq<nat>, ghost offs: seq<nat>, ghost i: nat)
    returns (may: bool)
    requires TableOk(t, p, added, cuts, offs) && t.filter == Some(contents) && i < |offs| && offs[i] == offset
    requires cuts[i] < cuts[i + 1] <= |added|
    ensures !may ==> forall q :: cuts[i] <= q < cuts[i + 1] ==> added[q].key.user != Position(k)
  {
    hide Scan, OpenFilter, EntryMayMatch;
    may := FilterMayMatch(OpenFilter(contents), p, offset, k);
    if !may {
      forall q | cuts[i] <= q < cuts[i + 1] ensures added[q].key.user != Position(k) {
        DeniedIsAbsent(t, p, added, cuts, offs, k, i, q - cuts[i]);
        assert added[cuts[i]..cuts[i + 1]][q - cuts[i]] == added[q];
      }
    }
  }

  /** What a lookup in one block comes to. */
  ghost function BlockResult(block: seq<Entry>, k: Bytes, s: nat): Outcome {
    var j := SeekIndex(block, SeekKey(Position(k), s));
    if j < |block| then Save(Some(block[j]), Position(k)) else NotFound
  }

  /** The lookup in one block's bytes. */
  method GetInBlock(block: Bytes, k: Bytes, s: nat, ghost entries: seq<Entry>) returns (r: Outcome)
    requires BlockHolds(block, entries) && Sorted(entries) && s <= MAX_SEQUENCE
    ensures r == BlockResult(entries, k, s)
  {
    hide BlockHolds, Sorted;
    var found := SeekBlock(block, RawKey(k, s, Value), entries);
    r := SaveRaw(found, k);
    ghost var j := SeekIndex(entries, SeekKey(Position(k), s));
    if j < |entries| { SaveAgrees(found.value.0, entries[j], k); }
  }

  lemma DeniedResult(added: seq<Entry>, a: nat, b: nat, k: Bytes, s: nat)
    requires a <= b <= |added| && forall q :: a <= q < b ==> added[q].key.user != Position(k)
    ensures BlockResult(added[a..b], k, s) == NotFound
  {
  }

  /** The data block's part of the lookup, unless the filter denies the key. */
  method GetFromBlock(f: RawFile, p: Policy, k: Bytes, s: nat, offset: nat, ghost t: TableFile, ghost added: seq<Entry>,
                      ghost cuts: seq<nat>, ghost offs: seq<nat>, ghost i: nat)
    returns (r: Outcome)
    requires TableOk(t, p, added, cuts, offs) && FileHolds(f, t) && s <= MAX_SEQUENCE
    requires i < |offs| && offs[i] == offset && i == SeekIndex(t.index, SeekKey(Position(k), s))
    requires cuts[i] < cuts[i + 1] <= |added| && offset in t.blocks && t.blocks[offset] == added[cuts[i]..cuts[i + 1]]
    ensures r == Scan(added, Position(k), s)
  {
    assert Sorted(added);
    BlockOutcome(t, p, added, cuts, offs, k, s, i);
    assert Scan(added, Position(k), s) == BlockResult(added[cuts[i]..cuts[i + 1]], k, s);
    hide TableOk, Scan, BlockHolds, Sorted, BlockResult;
    BlockSorted(added, cuts[i], cuts[i + 1]);
    if f.filter.Some? {
      var may := AskFilter(f.filter.value, p, k, s, offset, t, added, cuts, offs, i);
      if !may {
        DeniedResult(added, cuts[i], cuts[i + 1], k, s);
        return NotFound;
      }
    }
    r := GetInBlock(f.blocks[offset], k, s, added[cuts[i]..cuts[i + 1]]);
  }

  /** InternalGet on bytes: the same outcome as a linear scan of everything that was added. */
  method InternalGet(f: RawFile, p: Policy, k: Bytes, s: nat, ghost t: TableFile, ghost added: seq<Entry>,
                     ghost cuts: seq<nat>, ghost offs: seq<nat>)
    returns (r: Outcome)
    requires TableOk(t, p, added, cuts, offs) && FileHolds(f, t) && s <= MAX_SEQUENCE
    ensures r == Scan(added, Position(k), s) && Answers(added, Position(k), s, r)
  {
    hide BlockHolds, Scan, Answers, Cut, IndexEntryAt, FilterCovers;
    IndexPlace(t, p, added, cuts, offs, k, s);
    var indexed := SeekBlock(f.index, RawKey(k, s, Value), t.index);
    if indexed.None? {
      return NotFound;
    }
    var handle := DecodeHandle(indexed.value.1);
    r := GetFromBlock(f, p, k, s, handle.value.offset, t, added, cuts, offs,
      SeekIndex(t.index, SeekKey(Position(k), s)));
  }

  /** Entries with byte-string keys, built into a block. */
  method RenderBlock(raw: seq<RawKey>, values: seq<Bytes>, interval: nat)
    returns (block: Bytes, ghost entries: seq<Entry>)
    requires interval >= 1 && |values| == |raw| && RawOk(raw)
    ensures |entries| == |raw| && forall i :: 0 <= i < |raw| ==> entries[i] == Entry(Abs(raw[i]), values[i])
    ensures |block| < TWO32 ==> BlockHolds(block, entries)
  {
    entries := seq(|raw|, i requires 0 <= i < |raw| => Entry(Abs(raw[i]), values[i]));
    var records := seq(|raw|, i requires 0 <= i < |raw| => Block.Record(KeyBytes.Encode(raw[i]), values[i]));
    ghost var plan;
    block, plan := BlockIter.BuildBlock(records, interval);
    if |block| < TWO32 {
      assert Renders(block, plan, raw, entries);
    }
  }
}
