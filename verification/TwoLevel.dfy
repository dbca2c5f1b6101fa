/** TwoLevelIterator (two_level_iterator.cc): an index of blocks shown as one cursor over the
    concatenation of the blocks, empty blocks included.
  */
module TwoLevel {
  import opened Keys
  import opened Cursors

  /** An index (entry values are block handles) and the block each handle opens. */
  datatype Source = Source(index: seq<Entry>, open: Bytes -> seq<Entry>)

  function Block(src: Source, i: nat): seq<Entry>
    requires i < |src.index|
  {
    src.open(src.index[i].value)
  }

  /** The first `i` blocks in a row. */
  function Flat(src: Source, i: nat): seq<Entry>
    requires i <= |src.index|
  {
    if i == 0 then [] else Flat(src, i - 1) + Block(src, i - 1)
  }

  function All(src: Source): seq<Entry> {
    Flat(src, |src.index|)
  }

  function Offset(src: Source, i: nat): nat
    requires i <= |src.index|
  {
    |Flat(src, i)|
  }

  /** Every index key lies at or after the last key of its block and before all later blocks. */
  ghost predicate Separated(src: Source) {
    Sorted(src.index) && (forall h :: Sorted(src.open(h))) &&
    (forall i, e :: 0 <= i < |src.index| && e in Block(src, i) ==> !Less(src.index[i].key, e.key)) &&
    forall i, j, e :: 0 <= i < j < |src.index| && e in Block(src, j) ==> Less(src.index[i].key, e.key)
  }

  lemma {:induction false} FlatPrefix(src: Source, i: nat, j: nat)
    requires i <= j <= |src.index|
    ensures Offset(src, i) <= Offset(src, j) && Flat(src, j)[..Offset(src, i)] == Flat(src, i)
    decreases j - i
  {
    if i == j {
    } else {
      FlatPrefix(src, i, j - 1);
    }
  }

  /** Element `p` of block `i` sits at its offset in the concatenation. */
  lemma BlockAt(src: Source, i: nat, p: nat)
    requires i < |src.index| && p < |Block(src, i)|
    ensures Offset(src, i) + p < |All(src)| && All(src)[Offset(src, i) + p] == Block(src, i)[p]
  {
    FlatPrefix(src, i + 1, |src.index|);
    assert All(src)[Offset(src, i) + p] == Flat(src, i + 1)[Offset(src, i) + p];
  }

  /** Every element of the concatenation is in some block. */
  lemma {:induction false} Locate(src: Source, n: nat, q: nat) returns (i: nat)
    requires n <= |src.index| && q < Offset(src, n)
    ensures i < n && Offset(src, i) <= q < Offset(src, i + 1) && Flat(src, n)[q] == Block(src, i)[q - Offset(src, i)]
  {
    if q < Offset(src, n - 1) {
      i := Locate(src, n - 1, q);
    } else {
      i := n - 1;
    }
  }

  lemma OffsetsOrder(src: Source, i: nat, j: nat)
    requires i < |src.index| && j < |src.index| && Offset(src, i) < Offset(src, j + 1)
    ensures i <= j
  {
    if j < i {
      FlatPrefix(src, j + 1, i);
    }
  }

  lemma AllSorted(src: Source)
    requires Separated(src)
    ensures Sorted(All(src))
  {
    hide Tag;
    forall p, q | 0 <= p < q < |All(src)| ensures Less(All(src)[p].key, All(src)[q].key) {
      var i := Locate(src, |src.index|, p);
      var j := Locate(src, |src.index|, q);
      OffsetsOrder(src, i, j);
      if i < j {
        assert All(src)[p] in Block(src, i) && All(src)[q] in Block(src, j);
      } else {
        assert Sorted(src.open(src.index[i].value));
      }
    }
  }

  /** Seeking the index and then the block it points to finds the place in the concatenation. */
  lemma SeekThroughIndex(src: Source, target: InternalKey, i: nat)
    requires Separated(src) && i == SeekIndex(src.index, target)
    ensures SeekIndex(All(src), target) == SeekPlace(src, target, i)
  {
    PlaceInRange(src, target, i);
    AllBefore(src, target, i);
    if SeekPlace(src, target, i) < |All(src)| {
      AtPlace(src, target, i);
    }
    SeekUnique(All(src), target, SeekPlace(src, target, i));
  }

  lemma PlaceInRange(src: Source, target: InternalKey, i: nat)
    requires i <= |src.index|
    ensures SeekPlace(src, target, i) <= |All(src)|
  {
    if i < |src.index| {
      FlatPrefix(src, i + 1, |src.index|);
    }
  }

  lemma AllBefore(src: Source, target: InternalKey, i: nat)
    requires Separated(src) && i == SeekIndex(src.index, target) && SeekPlace(src, target, i) <= |All(src)|
    ensures forall q :: 0 <= q < SeekPlace(src, target, i) ==> Less(All(src)[q].key, target)
  {
    forall q | 0 <= q < SeekPlace(src, target, i) ensures Less(All(src)[q].key, target) {
      BeforePlace(src, target, i, q);
    }
  }

  ghost function SeekPlace(src: Source, target: InternalKey, i: nat): nat
    requires i <= |src.index|
  {
    if i < |src.index| then Offset(src, i) + SeekIndex(Block(src, i), target) else |All(src)|
  }

  lemma SeekUnique(run: seq<Entry>, target: InternalKey, s: nat)
    requires s <= |run| && (forall j :: 0 <= j < s ==> Less(run[j].key, target))
    requires s < |run| ==> !Less(run[s].key, target)
    ensures SeekIndex(run, target) == s
  {
  }

  lemma BeforePlace(src: Source, target: InternalKey, i: nat, q: nat)
    requires Separated(src) && i == SeekIndex(src.index, target) && q < SeekPlace(src, target, i) <= |All(src)|
    ensures Less(All(src)[q].key, target)
  {
    var j := Locate(src, |src.index|, q);
    if j != i {
      BeforeSeek(src, i, j, q, SeekPlace(src, target, i));
      EarlierBlock(src, target, i, j, All(src)[q]);
    }
  }

  lemma AtPlace(src: Source, target: InternalKey, i: nat)
    requires Separated(src) && i == SeekIndex(src.index, target) && SeekPlace(src, target, i) < |All(src)|
    ensures !Less(All(src)[SeekPlace(src, target, i)].key, target)
  {
    var s := SeekPlace(src, target, i);
    var j := Locate(src, |src.index|, s);
    OffsetsOrder(src, i, j);
    LaterBlock(src, target, i, j, All(src)[s], s - Offset(src, j));
  }

  lemma FirstOffset(src: Source)
    requires Separated(src)
    ensures |src.index| > 0 ==> Offset(src, 1) == |Block(src, 0)|
  {
    if |src.index| > 0 {
      var one: nat := 1;
      assert Flat(src, one - 1) == [];
      assert Flat(src, one) == Flat(src, one - 1) + Block(src, one - 1);
    }
  }

  lemma EarlierBlock(src: Source, target: InternalKey, i: nat, j: nat, e: Entry)
    requires Separated(src) && i == SeekIndex(src.index, target) && j < i && e in Block(src, j)
    ensures Less(e.key, target)
  {
    assert Less(src.index[j].key, target) && !Less(src.index[j].key, e.key);
  }

  lemma LaterBlock(src: Source, target: InternalKey, i: nat, j: nat, e: Entry, p: nat)
    requires Separated(src) && i == SeekIndex(src.index, target) && i <= j < |src.index|
    requires p < |Block(src, j)| && Block(src, j)[p] == e && (j == i ==> p == SeekIndex(Block(src, i), target))
    ensures !Less(e.key, target)
  {
    if i < j {
      assert e in Block(src, j);
      assert Less(src.index[i].key, e.key) && !Less(src.index[i].key, target);
    }
  }

  lemma BeforeSeek(src: Source, i: nat, j: nat, q: nat, s: nat)
    requires i <= |src.index| && j < |src.index| && j != i && Offset(src, j) <= q < s
    requires i < |src.index| ==> s <= Offset(src, i + 1)
    ensures j < i
  {
    if i < j {
      FlatPrefix(src, i + 1, j);
    }
  }

  class TwoLevelIterator {
    ghost const src: Source
    const open: Bytes -> seq<Entry>
    const index: Cursor
    var data: Cursor?
    var dataHandle: Bytes

    ghost predicate Inv() reads this, index, data {
      Linked() && (data != null ==> data.pos.Some?)
    }

    /** The open block is the one the index stands at. */
    ghost predicate Linked() reads this, index, data {
      Separated(src) && open == src.open && index.Valid() && index.entries == src.index &&
      (data != null ==>
        data.Valid() && data != index && index.pos.Some? &&
        data.entries == open(dataHandle) && dataHandle == src.index[index.pos.value].value)
    }

    ghost function Position(): (p: Option<nat>)
      requires Linked()
      reads this, index, data
    {
      if data != null && data.pos.Some? then Some(Offset(src, index.pos.value) + data.pos.value) else None
    }

    constructor (index: Cursor, open: Bytes -> seq<Entry>)
      requires index.Valid() && Separated(Source(index.entries, open))
      ensures Inv() && Position() == None && this.index == index && src == Source(index.entries, open)
    {
      src := Source(index.entries, open);
      this.index, this.open, data, dataHandle := index, open, null, [];
    }

    method Current() returns (e: Option<Entry>)
      requires Inv()
      ensures Position().Some? ==> Position().value < |All(src)| && e == Some(All(src)[Position().value])
      ensures Position().None? ==> e == None
    {
      if data == null { return None; }
      BlockAt(src, index.pos.value, data.pos.value);
      e := Some(data.entries[data.pos.value]);
    }

    /** Opens the block the index stands at, unless it is open already. */
    method InitDataBlock()
      requires index.Valid() && Separated(src) && open == src.open && index.entries == src.index
      requires data != null ==> data.Valid() && data != index && data.entries == open(dataHandle)
      modifies this
      ensures Linked() && (data != null <==> index.pos.Some?)
      ensures data == old(data) || data == null || fresh(data)
    {
      if index.pos.None? {
        data := null;
      } else {
        var handle := index.Value();
        if data == null || handle != dataHandle {
          assert Sorted(src.open(handle));
          data := new Cursor(open(handle));
          dataHandle := handle;
        }
      }
    }

    /** The place in the concatenation a forward skip starts from. */
    ghost predicate ForwardFrom(l: nat)
      requires Linked()
      reads this, index, data
    {
      if Position().Some? then l == Position().value
      else if index.pos.Some? then l == Offset(src, index.pos.value + 1)
      else l == |All(src)|
    }

    /** The place a backward skip starts from, -1 before everything. */
    ghost predicate BackwardFrom(l: int)
      requires Linked()
      reads this, index, data
    {
      if Position().Some? then l == Position().value
      else if index.pos.Some? then l == Offset(src, index.pos.value) - 1
      else l == -1
    }

    method SkipEmptyDataBlocksForward(ghost l: nat)
      requires Linked() && ForwardFrom(l)
      modifies this, index, data
      ensures Inv() && Position() == Clip(l, |All(src)|)
      ensures data == old(data) || data == null || fresh(data)
    {
      hide Sorted, Separated, Less;
      while data == null || data.pos.None?
        invariant Linked() && ForwardFrom(l)
        invariant data == old(data) || data == null || fresh(data)
        decreases if index.pos.Some? then |src.index| - index.pos.value else 0, if data == null then 0 else 1
      {
        if index.pos.None? {
          data := null;
          return;
        }
        OpenNext(l);
      }
      BlockAt(src, index.pos.value, data.pos.value);
    }

    method OpenNext(ghost l: nat)
      requires Linked() && ForwardFrom(l) && (data == null || data.pos.None?) && index.pos.Some?
      modifies this, index, data
      ensures Linked() && ForwardFrom(l)
      ensures index.pos == Clip(old(index.pos).value + 1, |src.index|) && (data != null <==> index.pos.Some?)
      ensures data == old(data) || data == null || fresh(data)
    {
      hide Sorted, Separated, Less;
      index.Next();
      InitDataBlock();
      if data != null { data.SeekToFirst(); }
    }

    method SkipEmptyDataBlocksBackward(ghost l: int)
      requires Linked() && BackwardFrom(l)
      modifies this, index, data
      ensures Inv() && Position() == Clip(l, |All(src)|)
      ensures data == old(data) || data == null || fresh(data)
    {
      hide Sorted, Separated;
      while data == null || data.pos.None?
        invariant Linked() && BackwardFrom(l)
        invariant data == old(data) || data == null || fresh(data)
        decreases if index.pos.Some? then index.pos.value + 1 else 0, if data == null then 0 else 1
      {
        if index.pos.None? {
          data := null;
          return;
        }
        index.Prev();
        InitDataBlock();
        if data != null { data.SeekToLast(); }
      }
      BlockAt(src, index.pos.value, data.pos.value);
    }

    /** Seeks the index, then the block it points to. */
    method SeekBlock(target: InternalKey)
      requires Inv()
      modifies this, index, data
      ensures Linked() && ForwardFrom(SeekPlace(src, target, SeekIndex(src.index, target)))
      ensures data == old(data) || data == null || fresh(data)
    {
      index.Seek(target);
      InitDataBlock();
      if data != null { data.Seek(target); }
    }

    method Seek(target: InternalKey)
      requires Inv()
      modifies this, index, data
      ensures Inv() && Position() == Clip(SeekIndex(All(src), target), |All(src)|)
      ensures data == old(data) || data == null || fresh(data)
    {
      SeekBlock(target);
      SeekThroughIndex(src, target, SeekIndex(src.index, target));
      SkipEmptyDataBlocksForward(SeekIndex(All(src), target));
    }

    method SeekToFirst()
      requires Inv()
      modifies this, index, data
      ensures Inv() && Position() == Clip(0, |All(src)|)
      ensures data == old(data) || data == null || fresh(data)
    {
      index.SeekToFirst();
      InitDataBlock();
      if data != null { data.SeekToFirst(); }
      FirstOffset(src);
      SkipEmptyDataBlocksForward(0);
    }

    method SeekToLast()
      requires Inv()
      modifies this, index, data
      ensures Inv() && Position() == Clip(|All(src)| - 1, |All(src)|)
      ensures data == old(data) || data == null || fresh(data)
    {
      index.SeekToLast();
      InitDataBlock();
      if data != null { data.SeekToLast(); }
      SkipEmptyDataBlocksBackward(|All(src)| - 1);
    }

    method Next()
      requires Inv() && Position().Some?
      modifies this, index, data
      ensures Inv() && Position() == Clip(old(Position()).value + 1, |All(src)|)
      ensures data == old(data) || data == null || fresh(data)
    {
      ghost var was := Position().value;
      data.Next();
      SkipEmptyDataBlocksForward(was + 1);
    }

    method Prev()
      requires Inv() && Position().Some?
      modifies this, index, data
      ensures Inv() && Position() == Clip(old(Position()).value - 1, |All(src)|)
      ensures data == old(data) || data == null || fresh(data)
    {
      ghost var was: int := Position().value;
      data.Prev();
      SkipEmptyDataBlocksBackward(was - 1);
    }

    method Apply(move: Move<InternalKey>)
      requires Inv()
      modifies this, index, data
      ensures Inv() && Position() == Step(|All(src)|, old(Position()), move, EntrySeek(All(src)))
      ensures data == old(data) || data == null || fresh(data)
    {
      match move
      case SeekToFirst => SeekToFirst();
      case SeekToLast => SeekToLast();
      case Seek(target) => Seek(target);
      case Next => if data != null { Next(); }
      case Prev => if data != null { Prev(); }
    }

    /** Any sequence of calls moves like a cursor over the concatenated blocks. */
    method Drive(moves: seq<Move<InternalKey>>)
      requires Inv()
      modifies this, index, data
      ensures Inv() && Position() == Run(|All(src)|, old(Position()), moves, EntrySeek(All(src)))
    {
      for i := 0 to |moves|
        invariant Inv() && (data == old(data) || data == null || fresh(data))
        invariant Position() == Run(|All(src)|, old(Position()), moves[..i], EntrySeek(All(src)))
      {
        assert moves[..i + 1][..i] == moves[..i];
        Apply(moves[i]);
      }
      assert moves[..|moves|] == moves;
    }
  }

  ghost function EntrySeek(run: seq<Entry>): InternalKey -> int {
    target => SeekIndex(run, target)
  }
}
