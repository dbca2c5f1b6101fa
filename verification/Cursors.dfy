/** Bidirectional cursors (include/leveldb/iterator.h): what every iterator of the stack promises,
    and the plain cursor over one sorted run that the deeper iterators stand on.
  */
module Cursors {
  import opened Keys

  /** A position among `n` elements; None is an invalid iterator, off either end. */
  function Clip(i: int, n: nat): (p: Option<nat>) {
    if 0 <= i < n then Some(i) else None
  }

  datatype Move<K> = SeekToFirst | SeekToLast | Seek(target: K) | Next | Prev

  /** One call on a cursor over `n` elements; Next and Prev are for valid cursors only, and a call
      that the contract forbids leaves the position alone. */
  function Step<K>(n: nat, at: Option<nat>, move: Move<K>, index: K -> int): Option<nat> {
    match move
    case SeekToFirst => Clip(0, n)
    case SeekToLast => Clip(n - 1, n)
    case Seek(target) => Clip(index(target), n)
    case Next => if at.Some? then Clip(at.value + 1, n) else None
    case Prev => if at.Some? then Clip(at.value - 1, n) else None
  }

  /** The position after a whole sequence of calls. */
  function Run<K>(n: nat, at: Option<nat>, moves: seq<Move<K>>, index: K -> int): Option<nat> {
    if moves == [] then at
    else Step(n, Run(n, at, moves[..|moves| - 1], index), moves[|moves| - 1], index)
  }

  /** A cursor over a sorted run of entries, the form memtable and block iterators take. */
  class Cursor {
    const entries: seq<Entry>
    var pos: Option<nat>

    ghost predicate Valid() reads this {
      Sorted(entries) && (pos.Some? ==> pos.value < |entries|)
    }

    constructor (entries: seq<Entry>)
      requires Sorted(entries)
      ensures Valid() && this.entries == entries && pos == None
    {
      this.entries := entries;
      pos := None;
    }

    function Key(): InternalKey
      requires Valid() && pos.Some?
      reads this
    {
      entries[pos.value].key
    }

    function Value(): Bytes
      requires Valid() && pos.Some?
      reads this
    {
      entries[pos.value].value
    }

    method SeekToFirst()
      requires Valid()
      modifies this
      ensures Valid() && pos == Clip(0, |entries|)
    {
      pos := Clip(0, |entries|);
    }

    method SeekToLast()
      requires Valid()
      modifies this
      ensures Valid() && pos == Clip(|entries| - 1, |entries|)
    {
      pos := Clip(|entries| - 1, |entries|);
    }

    method Seek(target: InternalKey)
      requires Valid()
      modifies this
      ensures Valid() && pos == Clip(SeekIndex(entries, target), |entries|)
    {
      pos := Clip(SeekIndex(entries, target), |entries|);
    }

    method Next()
      requires Valid() && pos.Some?
      modifies this
      ensures Valid() && pos == Clip(old(pos).value + 1, |entries|)
    {
      pos := Clip(pos.value + 1, |entries|);
    }

    method Prev()
      requires Valid() && pos.Some?
      modifies this
      ensures Valid() && pos == Clip(old(pos).value - 1, |entries|)
    {
      pos := Clip(pos.value - 1, |entries|);
    }
  }
}
