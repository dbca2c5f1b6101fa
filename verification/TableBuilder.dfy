/** TableBuilder (table/table_builder.cc).  Each data block's index entry waits for the first key of
    the next block, so that its key can be shortened.
  */
module TableBuilder {
  import opened Keys
  import opened Coding
  import opened Separators
  import opened Bloom
  import opened FilterBlock
  import opened TwoLevel
  import opened Sequences
  import opened Table

  const TRAILER: nat := 5

  // ---------- what is written so far ----------

  /** The blocks before `offset` hold the entries up to the last cut. */
  ghost predicate BlocksOk(blocks: map<nat, seq<Entry>>, added: seq<Entry>, cuts: seq<nat>, offs: seq<nat>,
                           offset: nat) {
    Cut(added, cuts, offs) && SortedBlocks(blocks) &&
    forall i :: 0 <= i < |offs| ==> offs[i] < offset && BlockAtOffset(blocks, added, cuts, offs, i)
  }

  /** The first blocks are indexed; unless the table is complete, entries follow each of them. */
  ghost predicate IndexOk(index: seq<Entry>, added: seq<Entry>, cuts: seq<nat>, offs: seq<nat>, bound: nat,
                          complete: bool) {
    Cut(added, cuts, offs) && |index| <= |offs| &&
    forall i :: 0 <= i < |index| ==>
      IndexEntryAt(index[i], added, cuts, offs, i, bound) && (complete || Follows(added, cuts, i))
  }

  ghost predicate Follows(added: seq<Entry>, cuts: seq<nat>, i: nat) {
    i + 1 < |cuts| && cuts[i + 1] < |added|
  }

  lemma SortedSnoc(run: seq<Entry>, e: Entry)
    requires Sorted(run) && (run != [] ==> Less(run[|run| - 1].key, e.key))
    ensures Sorted(run + [e])
  {
    forall i | 0 <= i < |run| ensures Less(run[i].key, e.key) {
      assert i < |run| - 1 ==> Less(run[i].key, run[|run| - 1].key);
    }
  }

  lemma CutGrows(added: seq<Entry>, cuts: seq<nat>, offs: seq<nat>, e: Entry)
    requires Cut(added, cuts, offs) && (added != [] ==> Less(added[|added| - 1].key, e.key))
    ensures Cut(added + [e], cuts, offs)
  {
    SortedSnoc(added, e);
  }

  lemma BlocksGrow(blocks: map<nat, seq<Entry>>, added: seq<Entry>, cuts: seq<nat>, offs: seq<nat>, offset: nat,
                   e: Entry)
    requires BlocksOk(blocks, added, cuts, offs, offset) && Cut(added + [e], cuts, offs)
    ensures BlocksOk(blocks, added + [e], cuts, offs, offset)
  {
    forall i | 0 <= i < |offs| ensures BlockAtOffset(blocks, added + [e], cuts, offs, i) {
      assert BlockAtOffset(blocks, added, cuts, offs, i);
      assert (added + [e])[cuts[i]..cuts[i + 1]] == added[cuts[i]..cuts[i + 1]];
    }
  }

  lemma SeparatesMore(key: InternalKey, added: seq<Entry>, cut: nat, e: Entry)
    requires 0 < cut < |added| && KeySeparates(key, added, cut)
    requires Less(added[cut].key, e.key)
    ensures KeySeparates(key, added + [e], cut)
  {
  }

  lemma IndexGrow(index: seq<Entry>, added: seq<Entry>, cuts: seq<nat>, offs: seq<nat>, bound: nat, e: Entry)
    requires IndexOk(index, added, cuts, offs, bound, false) && Cut(added + [e], cuts, offs)
    ensures IndexOk(index, added + [e], cuts, offs, bound, false)
  {
    forall i | 0 <= i < |index|
      ensures IndexEntryAt(index[i], added + [e], cuts, offs, i, bound) && Follows(added + [e], cuts, i)
    {
      assert IndexEntryAt(index[i], added, cuts, offs, i, bound) && Follows(added, cuts, i);
      var cut := cuts[i + 1];
      assert Less((added + [e])[cut].key, (added + [e])[|added|].key);
      SeparatesMore(index[i].key, added, cut, e);
    }
  }

  // ---------- the waiting index entry ----------

  /** The next block's first entry `e` is at hand: the waiting entry is indexed and `e` added. */
  lemma IndexNext(index: seq<Entry>, added: seq<Entry>, cuts: seq<nat>, offs: seq<nat>, bound: nat, e: Entry,
                  x: Entry, size: nat)
    requires IndexOk(index, added, cuts, offs, bound, false) && |index| + 1 == |offs| && Cut(added + [e], cuts, offs)
    requires 0 < |added| == cuts[|offs|]
    requires !Less(x.key, added[|added| - 1].key) && Less(x.key, e.key)
    requires x.key == added[|added| - 1].key || x.key.user < e.key.user
    requires x.value == EncodeHandle(BlockHandle(offs[|offs| - 1], size)) && size < bound
    ensures IndexOk(index + [x], added + [e], cuts, offs, bound, false)
  {
    IndexGrow(index, added, cuts, offs, bound, e);
    var n := |index|;
    assert KeySeparates(x.key, added + [e], cuts[n + 1]);
    assert IndexEntryAt(x, added + [e], cuts, offs, n, bound) && Follows(added + [e], cuts, n);
  }

  /** At the end the last index entry has nothing after it. */
  lemma IndexLast(index: seq<Entry>, added: seq<Entry>, cuts: seq<nat>, offs: seq<nat>, bound: nat, x: Entry, size: nat)
    requires IndexOk(index, added, cuts, offs, bound, true) && |index| + 1 == |offs|
    requires 0 < |added| == cuts[|offs|] && !Less(x.key, added[|added| - 1].key)
    requires x.value == EncodeHandle(BlockHandle(offs[|offs| - 1], size)) && size < bound
    ensures IndexOk(index + [x], added, cuts, offs, bound, true)
  {
    var n := |index|;
    assert KeySeparates(x.key, added, cuts[n + 1]);
    assert IndexEntryAt(x, added, cuts, offs, n, bound);
  }

  // ---------- writing a block ----------

  lemma CutMore(added: seq<Entry>, cuts: seq<nat>, offs: seq<nat>, offset: nat)
    requires Cut(added, cuts, offs) && cuts[|offs|] < |added| && forall i :: 0 <= i < |offs| ==> offs[i] < offset
    ensures Cut(added, cuts + [|added|], offs + [offset])
  {
    assert forall i :: 0 <= i < |cuts| - 1 ==> cuts[i] < cuts[|offs|];
  }

  lemma BlocksMore(blocks: map<nat, seq<Entry>>, added: seq<Entry>, cuts: seq<nat>, offs: seq<nat>, offset: nat,
                   offset': nat)
    requires BlocksOk(blocks, added, cuts, offs, offset) && cuts[|offs|] < |added| && offset < offset'
    requires Cut(added, cuts + [|added|], offs + [offset])
    ensures BlocksOk(blocks[offset := added[cuts[|offs|]..]], added, cuts + [|added|], offs + [offset], offset')
  {
    var blocks', cuts', offs' := blocks[offset := added[cuts[|offs|]..]], cuts + [|added|], offs + [offset];
    assert Sorted(added[cuts[|offs|]..]);
    forall i | 0 <= i < |offs'| ensures offs'[i] < offset' && BlockAtOffset(blocks', added, cuts', offs', i) {
      if i < |offs| {
        assert BlockAtOffset(blocks, added, cuts, offs, i);
      } else {
        assert added[cuts[i]..] == added[cuts[i]..|added|];
      }
    }
  }

  lemma IndexMore(index: seq<Entry>, added: seq<Entry>, cuts: seq<nat>, offs: seq<nat>, bound: nat, bound': nat,
                  offset: nat)
    requires IndexOk(index, added, cuts, offs, bound, false) && bound <= bound'
    requires Cut(added, cuts + [|added|], offs + [offset])
    ensures IndexOk(index, added, cuts + [|added|], offs + [offset], bound', false)
  {
    var cuts', offs' := cuts + [|added|], offs + [offset];
    forall i | 0 <= i < |index|
      ensures IndexEntryAt(index[i], added, cuts', offs', i, bound') && Follows(added, cuts', i)
    {
      assert IndexEntryAt(index[i], added, cuts, offs, i, bound) && Follows(added, cuts, i);
      var size: nat :| size < bound && index[i].value == EncodeHandle(BlockHandle(offs[i], size));
      assert index[i].value == EncodeHandle(BlockHandle(offs'[i], size));
    }
  }

  // ---------- filters ----------

  /** `home[q]` is the offset of the block that holds entry `q`. */
  ghost predicate HomeOk(home: seq<nat>, cuts: seq<nat>, offs: seq<nat>, offset: nat) {
    |cuts| == |offs| + 1 && cuts[|offs|] <= |home| &&
    (forall i, j, q :: 0 <= i < j < |cuts| && j == i + 1 && cuts[i] <= q < cuts[j] <= |home| ==> home[q] == offs[i]) &&
    forall q :: cuts[|offs|] <= q < |home| ==> home[q] == offset
  }

  lemma HomeMore(home: seq<nat>, cuts: seq<nat>, offs: seq<nat>, offset: nat, offset': nat)
    requires HomeOk(home, cuts, offs, offset)
    ensures HomeOk(home, cuts + [|home|], offs + [offset], offset')
  {
  }

  /** The filter has the user key of every entry under its block's offset. */
  ghost predicate FilterHas(f: FilterBlockBuilder, added: seq<Entry>, home: seq<nat>, offset: nat) reads f {
    f.Valid() && |f.filed| == offset / BASE && |home| == |added| &&
    forall q :: 0 <= q < |added| ==> Holds(f.KeysAt(home[q] / BASE), added[q].key.user)
  }

  lemma HoldsMore(users: seq<Bytes>, u: Bytes, user: UserKey)
    ensures Holds(users, user) ==> Holds(users + [u], user)
    ensures Holds(users + [u], Position(u))
  {
    if Holds(users, user) {
      var v :| v in users && Position(v) == user;
      assert v in users + [u];
    }
    assert u in users + [u];
  }

  /** A finished filter block covers the finished table. */
  lemma FilterCoversTable(p: Policy, filed: seq<seq<Bytes>>, filters: Bytes, offsets: seq<nat>, added: seq<Entry>,
                          cuts: seq<nat>, offs: seq<nat>, home: seq<nat>, offset: nat)
    requires FiltersOk(p, filed, offsets, filters) && |filters| < TWO32 && Cut(added, cuts, offs)
    requires |home| == |added| && HomeOk(home, cuts, offs, offset)
    requires forall q :: 0 <= q < |added| ==>
      home[q] / BASE < |filed| && Holds(filed[home[q] / BASE], added[q].key.user)
    ensures FilterCovers(p, Finished(filters, offsets), added, cuts, offs)
  {
    OpenFinished(filters, offsets);
    forall i, q, u | 0 <= i < |offs| && cuts[i] <= q < cuts[i + 1] <= |added| && added[q].key.user == Position(u)
      ensures FilterSaysYes(p, Finished(filters, offsets), offs[i], u)
    {
      var j := i + 1;
      assert cuts[i] <= q < cuts[j] && home[q] == offs[i];
      var v :| v in filed[home[q] / BASE] && Position(v) == added[q].key.user;
      BytewiseEmbedsInReals(u, v);
      FiledKeyMatches(p, filed, filters, offsets, offs[i], u);
    }
  }

  lemma BodyGrows(blocks: map<nat, seq<Entry>>, added: seq<Entry>, cuts: seq<nat>, offs: seq<nat>, offset: nat,
                  home: seq<nat>, data: seq<Entry>, e: Entry)
    requires BlocksOk(blocks, added, cuts, offs, offset) && (added != [] ==> Less(added[|added| - 1].key, e.key))
    requires data == added[cuts[|offs|]..] && |home| == |added| && HomeOk(home, cuts, offs, offset)
    ensures Cut(added + [e], cuts, offs)
    ensures BlocksOk(blocks, added + [e], cuts, offs, offset) && HomeOk(home + [offset], cuts, offs, offset)
    ensures data + [e] == (added + [e])[cuts[|offs|]..] && (added + [e])[|added|] == e
  {
    CutGrows(added, cuts, offs, e);
    BlocksGrow(blocks, added, cuts, offs, offset, e);
  }

  // ---------- the size of the file ----------

  /** Where the next block starts and which entries wait for it. */
  datatype Cutting = Cutting(offset: nat, open: seq<Entry>)

  /** Writing out the open block. */
  ghost function CutOff(c: Cutting, size: seq<Entry> -> nat): Cutting {
    if c.open == [] then c else Cutting(c.offset + size(c.open) + TRAILER, [])
  }

  /** One more entry; the block is written once it is large enough. */
  ghost function CutNext(c: Cutting, e: Entry, blockSize: nat, size: seq<Entry> -> nat): Cutting {
    var next := Cutting(c.offset, c.open + [e]);
    if size(next.open) >= blockSize then CutOff(next, size) else next
  }

  ghost function CutAll(entries: seq<Entry>, blockSize: nat, size: seq<Entry> -> nat): Cutting {
    if entries == [] then Cutting(0, [])
    else CutNext(CutAll(entries[..|entries| - 1], blockSize, size), entries[|entries| - 1], blockSize, size)
  }

  lemma CutAllSnoc(entries: seq<Entry>, e: Entry, blockSize: nat, size: seq<Entry> -> nat)
    ensures CutAll(entries + [e], blockSize, size) == CutNext(CutAll(entries, blockSize, size), e, blockSize, size)
  {
    assert (entries + [e])[..|entries|] == entries;
  }

  /** The bytes of all data blocks of a table of `entries`. */
  ghost function DataBytes(entries: seq<Entry>, blockSize: nat, size: seq<Entry> -> nat): nat {
    CutOff(CutAll(entries, blockSize, size), size).offset
  }

  /** The most a filter block of `n` keys takes in a table whose data takes `data` bytes. */
  function FilterRoom(p: Policy, n: nat, data: nat): nat {
    n * (p.bitsPerKey + 10) + 4 * (data / BASE + 1) + 5
  }

  // ---------- the builder ----------

  class TableBuilder {
    const policy: Policy
    const filter: FilterBlockBuilder?
    const blockSize: nat
    /** The size in bytes of a block with these entries. */
    const size: seq<Entry> -> nat
    var offset: nat
    var dataBlock: seq<Entry>
    var indexBlock: seq<Entry>
    var blocks: map<nat, seq<Entry>>
    var lastKey: RawKey
    var numEntries: nat
    var pendingIndexEntry: bool
    var pendingHandle: BlockHandle
    var closed: bool
    ghost var added: seq<Entry>
    ghost var cuts: seq<nat>
    ghost var offs: seq<nat>
    ghost var home: seq<nat>

    ghost predicate BodyOk()
      reads this`blocks, this`added, this`cuts, this`offs, this`offset, this`dataBlock, this`home
      reads this`numEntries, this`lastKey
    {
      BlocksOk(blocks, added, cuts, offs, offset) && dataBlock == added[cuts[|offs|]..] &&
      |home| == |added| && HomeOk(home, cuts, offs, offset) &&
      numEntries == |added| && (added != [] ==> Abs(lastKey) == added[|added| - 1].key)
    }

    ghost predicate WaitingOk()
      reads this`indexBlock, this`pendingIndexEntry, this`pendingHandle, this`offs, this`offset, this`dataBlock
    {
      |indexBlock| + (if pendingIndexEntry then 1 else 0) == |offs| &&
      (pendingIndexEntry ==>
        dataBlock == [] && pendingHandle.offset == offs[|offs| - 1] && pendingHandle.size <= offset)
    }

    /** The filter, if any, has the keys of the entries so far. */
    ghost predicate FilterKnows(entries: seq<Entry>, home: seq<nat>)
      reads this`offset, filter
    {
      filter != null ==>
        filter.policy == policy && FilterHas(filter, entries, home, offset) && filter.Total() == |entries|
    }

    ghost predicate FilterOkay()
      reads this`added, this`home, this`offset, filter
    {
      FilterKnows(added, home)
    }

    /** How far the cutting has got. */
    ghost function Now(): Cutting reads this {
      Cutting(offset, dataBlock)
    }

    ghost predicate Valid() reads this, filter {
      PolicyOk(policy) && BodyOk() && WaitingOk() && FilterOkay() &&
      IndexOk(indexBlock, added, cuts, offs, offset + 1, false)
    }

    constructor (policy: Policy, useFilter: bool, blockSize: nat, size: seq<Entry> -> nat)
      requires PolicyOk(policy)
      ensures Valid() && !closed && added == [] && Now() == Cutting(0, [])
      ensures (filter != null ==> fresh(filter)) && (filter != null <==> useFilter)
      ensures this.policy == policy && this.blockSize == blockSize && this.size == size
    {
      this.policy, this.blockSize, this.size := policy, blockSize, size;
      offset, dataBlock, indexBlock, blocks, lastKey := 0, [], [], map[], RawKey([], 0, Value);
      numEntries, pendingIndexEntry, pendingHandle, closed := 0, false, BlockHandle(0, 0), false;
      added, cuts, offs, home := [], [0], [], [];
      if useFilter {
        var f := new FilterBlockBuilder(policy);
        f.StartBlock(0);
        filter := f;
      } else {
        filter := null;
      }
    }

    /** The index with the waiting entry, if any, shortened against the next key. */
    method IndexFor(key: RawKey, ghost e: Entry) returns (index: seq<Entry>)
      requires Valid() && (numEntries > 0 ==> Before(lastKey, key)) && e.key == Abs(key) && Cut(added + [e], cuts, offs)
      ensures |index| == |offs| && IndexOk(index, added + [e], cuts, offs, offset + 1, false)
    {
      if pendingIndexEntry {
        WaitingFacts();
        var short := SeparateKeys(lastKey, key);
        var x := Entry(Abs(short), EncodeHandle(pendingHandle));
        IndexNext(indexBlock, added, cuts, offs, offset + 1, e, x, pendingHandle.size);
        index := indexBlock + [x];
      } else {
        IndexGrow(indexBlock, added, cuts, offs, offset + 1, e);
        index := indexBlock;
      }
    }

    /** The entry itself joins the data block. */
    method AppendToBlock(key: RawKey, value: Bytes)
      requires BodyOk() && (numEntries > 0 ==> Before(lastKey, key))
      modifies this`lastKey, this`numEntries, this`dataBlock, this`added, this`home
      ensures BodyOk() && lastKey == key && home == old(home) + [offset]
      ensures added == old(added) + [Entry(Abs(key), value)] && dataBlock == old(dataBlock) + [Entry(Abs(key), value)]
    {
      hide BlocksOk, HomeOk, Cut;
      ghost var e := Entry(Abs(key), value);
      BodyGrows(blocks, added, cuts, offs, offset, home, dataBlock, e);
      lastKey, numEntries := key, numEntries + 1;
      dataBlock := dataBlock + [Entry(Abs(key), value)];
      added, home := added + [e], home + [offset];
    }

    /** Adds the waiting index entry, if any. */
    method SettleIndex(key: RawKey, ghost e: Entry)
      requires Valid() && (numEntries > 0 ==> Before(lastKey, key)) && e.key == Abs(key) && Cut(added + [e], cuts, offs)
      modifies this`indexBlock, this`pendingIndexEntry
      ensures !pendingIndexEntry && |indexBlock| == |offs|
      ensures IndexOk(indexBlock, added + [e], cuts, offs, offset + 1, false)
    {
      hide *;
      indexBlock := IndexFor(key, e);
      pendingIndexEntry := false;
    }

    method AddToFilter(u: Bytes, ghost before: seq<Entry>, ghost homeBefore: seq<nat>, ghost e: Entry)
      requires added == before + [e] && home == homeBefore + [offset] && e.key.user == Position(u)
      requires FilterKnows(before, homeBefore)
      modifies filter
      ensures FilterOkay()
    {
      if filter != null {
        forall q | 0 <= q < |before| ensures Holds(filter.KeysAt(home[q] / BASE) + [u], before[q].key.user) {
          HoldsMore(filter.KeysAt(home[q] / BASE), u, before[q].key.user);
        }
        HoldsMore(filter.pending, u, 0.0);
        filter.AddKey(u);
      }
    }

    lemma WaitingFacts()
      requires BodyOk() && WaitingOk() && pendingIndexEntry
      ensures 0 < |added| == cuts[|offs|] && pendingHandle == BlockHandle(offs[|offs| - 1], pendingHandle.size)
    {
      assert BlockAtOffset(blocks, added, cuts, offs, |offs| - 1);
    }

    /** The waiting index entry, the new entry, and its user key for the filter. */
    method AddEntry(key: RawKey, value: Bytes)
      requires Valid() && (numEntries > 0 ==> Before(lastKey, key))
      modifies this`indexBlock, this`pendingIndexEntry, this`lastKey, this`numEntries, this`dataBlock, this`added,
        this`home, filter
      ensures Valid() && added == old(added) + [Entry(Abs(key), value)] && lastKey == key
      ensures dataBlock == old(dataBlock) + [Entry(Abs(key), value)]
    {
      hide *;
      ghost var e := Entry(Abs(key), value);
      Receives(key, e);
      SettleIndex(key, e);
      AppendToBlock(key, value);
      AddToFilter(key.user, old(added), old(home), e);
      Assembled();
    }

    /** What the next entry may count on. */
    lemma Receives(key: RawKey, e: Entry)
      requires Valid() && (numEntries > 0 ==> Before(lastKey, key)) && e.key == Abs(key)
      ensures BodyOk() && WaitingOk() && FilterOkay() && FilterKnows(added, home) && PolicyOk(policy)
      ensures IndexOk(indexBlock, added, cuts, offs, offset + 1, false)
      ensures Cut(added + [e], cuts, offs) && e.key.user == Position(key.user)
    {
      BodyGrows(blocks, added, cuts, offs, offset, home, dataBlock, e);
    }

    lemma Assembled()
      requires PolicyOk(policy) && BodyOk() && FilterOkay() && !pendingIndexEntry && |indexBlock| == |offs|
      requires IndexOk(indexBlock, added, cuts, offs, offset + 1, false)
      ensures Valid()
    {
    }

    method Add(key: RawKey, value: Bytes)
      requires Valid() && !closed && (numEntries > 0 ==> Before(lastKey, key))
      modifies this, filter
      ensures Valid() && !closed && added == old(added) + [Entry(Abs(key), value)] && lastKey == key
      ensures Now() == CutNext(old(Now()), Entry(Abs(key), value), blockSize, size)
    {
      hide Valid, Before;
      AddEntry(key, value);
      if size(dataBlock) >= blockSize {
        Flush();
      }
    }

    /** Writes the data block, if it has entries, and starts the next. */
    method Flush()
      requires Valid() && !closed
      modifies this, filter
      ensures Valid() && !closed && added == old(added) && lastKey == old(lastKey) && dataBlock == []
      ensures Now() == CutOff(old(Now()), size)
    {
      hide BlocksOk, IndexOk, HomeOk, PolicyOk, BodyOk;
      if dataBlock == [] {
        return;
      }
      WriteBlock();
      if filter != null {
        assert old(offset) / BASE <= offset / BASE;
        filter.StartBlock(offset);
      }
    }

    method WriteBlock()
      requires Valid() && !closed && dataBlock != []
      modifies this`blocks, this`pendingHandle, this`offset, this`dataBlock, this`pendingIndexEntry, this`cuts,
        this`offs
      ensures BodyOk() && WaitingOk() && IndexOk(indexBlock, added, cuts, offs, offset + 1, false)
      ensures pendingIndexEntry && offset == old(offset) + size(old(dataBlock)) + TRAILER && dataBlock == []
    {
      hide FilterHas, PolicyOk;
      assert !pendingIndexEntry;
      var bytes := size(dataBlock);
      CutMore(added, cuts, offs, offset);
      BlocksMore(blocks, added, cuts, offs, offset, offset + bytes + TRAILER);
      IndexMore(indexBlock, added, cuts, offs, offset + 1, offset + bytes + TRAILER + 1, offset);
      HomeMore(home, cuts, offs, offset, offset + bytes + TRAILER);
      hide BlocksOk, IndexOk, HomeOk;
      pendingHandle := BlockHandle(offset, bytes);
      blocks := blocks[offset := dataBlock];
      cuts, offs := cuts + [|added|], offs + [offset];
      offset := offset + bytes + TRAILER;
      dataBlock := [];
      pendingIndexEntry := true;
    }

    /** The whole index: the last block's entry gets a short key after everything. */
    method WholeIndex() returns (index: seq<Entry>)
      requires Valid() && dataBlock == []
      ensures |index| == |offs| && IndexOk(index, added, cuts, offs, offset + 1, true)
    {
      index := indexBlock;
      if pendingIndexEntry {
        WaitingFacts();
        var short := SucceedKey(lastKey);
        var x := Entry(Abs(short), EncodeHandle(pendingHandle));
        IndexLast(indexBlock, added, cuts, offs, offset + 1, x, pendingHandle.size);
        index := indexBlock + [x];
      }
    }

    /** The finished filter block covers every entry under its block's offset. */
    method FinishFilter() returns (contents: Bytes)
      requires Valid() && filter != null && cuts[|offs|] == |added|
      modifies filter
      ensures |contents| < TWO32 ==> FilterCovers(policy, contents, added, cuts, offs)
      ensures |contents| <= FilterRoom(policy, |added|, offset)
    {
      hide IndexOk, FilterCovers, PolicyOk, FiltersOk, HomeOk;
      contents := filter.Finish();
      ghost var filters := contents[..|contents| - 5 - 4 * |filter.filterOffsets|];
      forall q | 0 <= q < |added|
        ensures home[q] / BASE < |filter.filed| && Holds(filter.filed[home[q] / BASE], added[q].key.user)
      {
        assert old(Holds(filter.KeysAt(home[q] / BASE), added[q].key.user));
        var u :| u in old(filter.KeysAt(home[q] / BASE)) && Position(u) == added[q].key.user;
        assert u in filter.filed[home[q] / BASE];
      }
      if |contents| < TWO32 {
        FilterCoversTable(policy, filter.filed, filters, filter.filterOffsets, added, cuts, offs, home, offset);
      }
    }

    method Collect() returns (t: TableFile)
      requires Valid() && dataBlock == []
      modifies filter
      ensures t.filter.Some? <==> filter != null
      ensures t.filter.Some? ==> |t.filter.value| <= FilterRoom(policy, |added|, offset)
      ensures offset < TWO64 && (t.filter.Some? ==> |t.filter.value| < TWO32) ==> TableOk(t, policy, added, cuts, offs)
    {
      var index := WholeIndex();
      assert cuts[|offs|] == |added|;
      var contents: Option<Bytes> := None;
      if filter != null {
        var f := FinishFilter();
        contents := Some(f);
      }
      t := TableFile(index, blocks, contents);
      if offset < TWO64 && (filter != null ==> |contents.value| < TWO32) {
        Assemble(t, policy, added, cuts, offs, offset);
      }
    }

    /** A finished file that fits its own offsets (64 bits, filters 32 bits) is a table of what was added. */
    method Finish() returns (t: TableFile)
      requires Valid() && !closed
      modifies this, filter
      ensures closed && added == old(added) && (t.filter.Some? <==> filter != null)
      ensures offset == CutOff(old(Now()), size).offset
      ensures t.filter.Some? ==> |t.filter.value| <= FilterRoom(policy, |added|, offset)
      ensures offset < TWO64 && (t.filter.Some? ==> |t.filter.value| < TWO32) ==> TableOk(t, policy, added, cuts, offs)
    {
      Flush();
      t := Collect();
      closed := true;
    }
  }

  lemma Assemble(t: TableFile, p: Policy, added: seq<Entry>, cuts: seq<nat>, offs: seq<nat>, offset: nat)
    requires PolicyOk(p) && BlocksOk(t.blocks, added, cuts, offs, offset) && offset < TWO64 && cuts[|offs|] == |added|
    requires IndexOk(t.index, added, cuts, offs, offset + 1, true) && |t.index| == |offs|
    requires t.filter.Some? ==> FilterCovers(p, t.filter.value, added, cuts, offs)
    ensures TableOk(t, p, added, cuts, offs)
  {
    IndexWithin(t.index, added, cuts, offs, offset + 1, TWO64);
  }

  lemma IndexWithin(index: seq<Entry>, added: seq<Entry>, cuts: seq<nat>, offs: seq<nat>, bound: nat, bound': nat)
    requires IndexOk(index, added, cuts, offs, bound, true) && bound <= bound'
    ensures forall i :: 0 <= i < |index| ==> IndexEntryAt(index[i], added, cuts, offs, i, bound')
  {
    forall i | 0 <= i < |index| ensures IndexEntryAt(index[i], added, cuts, offs, i, bound') {
      assert IndexEntryAt(index[i], added, cuts, offs, i, bound);
    }
  }

  ghost function EntriesOf(keys: seq<RawKey>, values: seq<Bytes>): seq<Entry>
    requires |values| == |keys|
  {
    seq(|keys|, i requires 0 <= i < |keys| => Entry(Abs(keys[i]), values[i]))
  }

  method BuildTable(policy: Policy, useFilter: bool, blockSize: nat, size: seq<Entry> -> nat, keys: seq<RawKey>,
                    values: seq<Bytes>)
    returns (t: TableFile, dataBytes: nat, ghost cuts: seq<nat>, ghost offs: seq<nat>)
    requires PolicyOk(policy) && |values| == |keys|
    requires forall i, j :: 0 <= i < j < |keys| ==> Before(keys[i], keys[j])
    ensures dataBytes == DataBytes(EntriesOf(keys, values), blockSize, size) && (t.filter.Some? <==> useFilter)
    ensures useFilter ==> |t.filter.value| <= FilterRoom(policy, |keys|, dataBytes)
    ensures dataBytes < TWO64 && (useFilter ==> |t.filter.value| < TWO32) ==>
      TableOk(t, policy, EntriesOf(keys, values), cuts, offs)
  {
    var b := new TableBuilder(policy, useFilter, blockSize, size);
    ghost var all := EntriesOf(keys, values);
    assert CutAll(all[..0], blockSize, size) == Cutting(0, []);
    hide b.Valid, PolicyOk, TableOk, CutAll, CutNext, CutOff, FilterRoom, Before;
    for i := 0 to |keys|
      invariant fresh(b) && (b.filter != null ==> fresh(b.filter)) && b.Valid() && !b.closed
      invariant b.policy == policy && b.size == size && b.blockSize == blockSize
      invariant b.added == all[..i] && (i > 0 ==> b.lastKey == keys[i - 1])
      invariant b.Now() == CutAll(all[..i], blockSize, size)
    {
      b.Add(keys[i], values[i]);
      TakeNext(all, i);
      CutAllSnoc(all[..i], all[i], blockSize, size);
    }
    assert all[..|keys|] == all;
    t := b.Finish();
    dataBytes, cuts, offs := b.offset, b.cuts, b.offs;
  }

  /** Building a table of ascending keys and looking one up: the same outcome as scanning what was
      added, unless the data exceeds 64-bit or the filter 32-bit offsets; and neither can happen
      when the data and the filter's bits per key leave enough room. */
  method BuildAndGet(policy: Policy, useFilter: bool, blockSize: nat, size: seq<Entry> -> nat, keys: seq<RawKey>,
                     values: seq<Bytes>, k: Bytes, s: nat)
    returns (r: Option<Outcome>, dataBytes: nat, filterBytes: nat)
    requires PolicyOk(policy) && |values| == |keys| && s <= MAX_SEQUENCE
    requires forall i, j :: 0 <= i < j < |keys| ==> Before(keys[i], keys[j])
    ensures r.Some? ==> r.value == Scan(EntriesOf(keys, values), Position(k), s)
    ensures r.Some? ==> Answers(EntriesOf(keys, values), Position(k), s, r.value)
    ensures r.Some? <==> dataBytes < TWO64 && filterBytes < TWO32
    ensures dataBytes == DataBytes(EntriesOf(keys, values), blockSize, size)
    ensures filterBytes <= if useFilter then FilterRoom(policy, |keys|, dataBytes) else 0
  {
    var t, bytes, cuts, offs := BuildTable(policy, useFilter, blockSize, size, keys, values);
    dataBytes, filterBytes := bytes, if useFilter then |t.filter.value| else 0;
    if dataBytes >= TWO64 || filterBytes >= TWO32 {
      return None, dataBytes, filterBytes;
    }
    var outcome := InternalGet(t, policy, k, s, EntriesOf(keys, values), cuts, offs);
    r := Some(outcome);
  }
}
