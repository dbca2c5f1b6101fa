/** HandleTable (util/cache.cc): the cache's chained hash table.  A chain is the sequence of its
    entries; a slot is a position in a chain.
  */
module HandleTables {
  import opened Keys

  class LRUHandle {
    const key: Bytes
    const hash: nat
    const charge: nat
    const value: Bytes
    var next: LRUHandle?
    var prev: LRUHandle?

    constructor (key: Bytes, hash: nat, charge: nat, value: Bytes)
      ensures this.key == key && this.hash == hash && this.charge == charge && this.value == value
      ensures next == this && prev == this
    {
      this.key, this.hash, this.charge, this.value := key, hash, charge, value;
      next, prev := this, this;
    }
  }

  predicate Same(h: LRUHandle, key: Bytes, hash: nat) {
    h.hash == hash && h.key == key
  }

  /** The bucket of a hash: its remainder, which for the table's power-of-two sizes is its low bits. */
  function Bucket(hash: nat, length: nat): (b: nat)
    requires length > 0
    ensures b < length
    decreases hash
  {
    if hash < length then hash else Bucket(hash - length, length)
  }

  function At(c: seq<LRUHandle>, j: nat): LRUHandle? {
    if j < |c| then c[j] else null
  }

  function Just(h: LRUHandle?): set<LRUHandle> {
    if h == null then {} else {h}
  }

  /** No two entries of a chain have the same key and hash. */
  ghost predicate NoTwins(c: seq<LRUHandle>) {
    forall j, k :: 0 <= j < k < |c| ==> !Same(c[j], c[k].key, c[k].hash)
  }

  ghost predicate InBucket(c: seq<LRUHandle>, length: nat, b: nat)
    requires length > 0
  {
    NoTwins(c) && forall j :: 0 <= j < |c| ==> Bucket(c[j].hash, length) == b
  }

  /** Each entry is in the chain of its bucket, and the chains hold nothing else. */
  ghost predicate Placed(chains: seq<seq<LRUHandle>>, handles: set<LRUHandle>) {
    |chains| > 0 &&
    (forall b :: 0 <= b < |chains| ==> InBucket(chains[b], |chains|, b)) &&
    (forall b, j :: 0 <= b < |chains| && 0 <= j < |chains[b]| ==> chains[b][j] in handles) &&
    forall h :: h in handles ==> h in chains[Bucket(h.hash, |chains|)]
  }

  /** A chain with slot `j` pointed at `h`, in place of the entry that was there if any. */
  function Put(c: seq<LRUHandle>, j: nat, h: LRUHandle): seq<LRUHandle>
    requires j <= |c|
  {
    if j < |c| then c[j := h] else c + [h]
  }

  function Cut(c: seq<LRUHandle>, j: nat): seq<LRUHandle>
    requires j < |c|
  {
    c[..j] + c[j + 1..]
  }

  lemma PutInBucket(c: seq<LRUHandle>, length: nat, b: nat, j: nat, h: LRUHandle)
    requires length > 0 && InBucket(c, length, b) && Bucket(h.hash, length) == b && j <= |c|
    requires if j < |c| then Same(c[j], h.key, h.hash)
             else forall k :: 0 <= k < |c| ==> !Same(c[k], h.key, h.hash)
    ensures InBucket(Put(c, j, h), length, b)
  {
    var d := Put(c, j, h);
    forall k, l | 0 <= k < l < |d| ensures !Same(d[k], d[l].key, d[l].hash) {
      assert j < |c| ==> !Same(c[k], c[l].key, c[l].hash);
    }
  }

  /** An entry is in one place only. */
  lemma PlacedOnce(chains: seq<seq<LRUHandle>>, handles: set<LRUHandle>, a: nat, k: nat, b: nat, j: nat)
    requires Placed(chains, handles) && a < |chains| && b < |chains| && k < |chains[a]| && j < |chains[b]|
    requires a != b || k != j
    ensures chains[a][k] != chains[b][j]
  {
    assert InBucket(chains[a], |chains|, a) && InBucket(chains[b], |chains|, b);
    if a == b {
      assert !Same(chains[b][if k < j then k else j], chains[b][if k < j then j else k].key,
                   chains[b][if k < j then j else k].hash);
    }
  }

  lemma PutPlaced(chains: seq<seq<LRUHandle>>, handles: set<LRUHandle>, b: nat, j: nat, h: LRUHandle)
    requires Placed(chains, handles) && h !in handles && b == Bucket(h.hash, |chains|) && j <= |chains[b]|
    requires if j < |chains[b]| then Same(chains[b][j], h.key, h.hash)
             else forall k :: 0 <= k < |chains[b]| ==> !Same(chains[b][k], h.key, h.hash)
    ensures Placed(chains[b := Put(chains[b], j, h)], handles - Just(At(chains[b], j)) + {h})
    ensures At(chains[b], j) != null ==> At(chains[b], j) in handles
  {
    hide Same, Bucket, InBucket;
    var c, d, chains' := chains[b], Put(chains[b], j, h), chains[b := Put(chains[b], j, h)];
    var handles' := handles - Just(At(c, j)) + {h};
    PutInBucket(c, |chains|, b, j, h);
    forall a, k | 0 <= a < |chains'| && 0 <= k < |chains'[a]| ensures chains'[a][k] in handles' {
      if chains'[a][k] != h {
        assert chains'[a][k] == chains[a][k];
        if j < |c| {
          PlacedOnce(chains, handles, a, k, b, j);
        }
      }
    }
    forall x | x in handles' ensures x in chains'[Bucket(x.hash, |chains'|)] {
      if x == h {
        assert d[j] == h;
      } else {
        var a := Bucket(x.hash, |chains|);
        var k :| 0 <= k < |chains[a]| && chains[a][k] == x;
        assert a == b ==> d[k] == x;
      }
    }
  }

  lemma CutPlaced(chains: seq<seq<LRUHandle>>, handles: set<LRUHandle>, b: nat, j: nat)
    requires Placed(chains, handles) && b < |chains| && j < |chains[b]|
    ensures Placed(chains[b := Cut(chains[b], j)], handles - {chains[b][j]}) && chains[b][j] in handles
  {
    hide Bucket;
    var c, d, chains' := chains[b], Cut(chains[b], j), chains[b := Cut(chains[b], j)];
    assert InBucket(c, |chains|, b);
    forall a | 0 <= a < |chains'| ensures InBucket(chains'[a], |chains'|, a) {
      assert InBucket(chains[a], |chains|, a);
    }
    forall a, k | 0 <= a < |chains'| && 0 <= k < |chains'[a]| ensures chains'[a][k] in handles - {c[j]} {
      if a == b {
        var l := if k < j then k else k + 1;
        assert d[k] == c[l];
        assert !Same(c[if j < l then j else l], c[if j < l then l else j].key, c[if j < l then l else j].hash);
      } else {
        assert InBucket(chains[a], |chains|, a);
      }
    }
    forall x | x in handles - {c[j]} ensures x in chains'[Bucket(x.hash, |chains'|)] {
      var a := Bucket(x.hash, |chains|);
      var k :| 0 <= k < |chains[a]| && chains[a][k] == x;
      if a == b {
        assert d[if k < j then k else k - 1] == x;
      }
    }
  }

  class HandleTable {
    var length: nat
    var elems: nat
    var list: array<seq<LRUHandle>>
    ghost var handles: set<LRUHandle>

    ghost predicate Valid() reads this, list {
      length == list.Length > 0 && elems == |handles| && Placed(list[..], handles)
    }

    constructor ()
      ensures Valid() && handles == {} && fresh(list)
    {
      // the initial Resize of an empty table
      length, elems, handles := 4, 0, {};
      list := new seq<LRUHandle>[4](i => []);
    }

    /** An entry is found through its key and hash alone. */
    lemma OneOfAKind(h: LRUHandle, g: LRUHandle)
      requires Valid() && h in handles && g in handles && Same(h, g.key, g.hash)
      ensures h == g
    {
      var c := list[..][Bucket(h.hash, length)];
      var j :| 0 <= j < |c| && c[j] == h;
      var k :| 0 <= k < |c| && c[k] == g;
      assert InBucket(c, length, Bucket(h.hash, length));
    }

    /** The slot that holds the entry with this key and hash, or the end of its chain. */
    method FindPointer(key: Bytes, hash: nat) returns (j: nat)
      requires Valid()
      ensures var c := list[Bucket(hash, length)];
        j <= |c| && (j < |c| ==> Same(c[j], key, hash)) &&
        (j == |c| ==> forall k :: 0 <= k < |c| ==> !Same(c[k], key, hash))
    {
      var b := Bucket(hash, length);
      j := 0;
      while j < |list[b]| && !(list[b][j].hash == hash && list[b][j].key == key)
        invariant j <= |list[b]|
        invariant forall k :: 0 <= k < j ==> !Same(list[b][k], key, hash)
      {
        j := j + 1;
      }
    }

    lemma NotThere(key: Bytes, hash: nat)
      requires Valid()
      requires forall k :: 0 <= k < |list[Bucket(hash, length)]| ==> !Same(list[Bucket(hash, length)][k], key, hash)
      ensures forall h :: h in handles ==> !Same(h, key, hash)
    {
      forall h | h in handles ensures !Same(h, key, hash) {
        var c := list[..][Bucket(h.hash, length)];
        var j :| 0 <= j < |c| && c[j] == h;
      }
    }

    method Lookup(key: Bytes, hash: nat) returns (e: LRUHandle?)
      requires Valid()
      ensures e != null ==> e in handles && Same(e, key, hash)
      ensures e == null ==> forall h :: h in handles ==> !Same(h, key, hash)
    {
      var j := FindPointer(key, hash);
      var b := Bucket(hash, length);
      if j < |list[b]| {
        e := list[b][j];
        assert list[..][b][j] in handles;
      } else {
        NotThere(key, hash);
        e := null;
      }
    }

    method Insert(h: LRUHandle) returns (old_: LRUHandle?)
      requires Valid() && h !in handles
      modifies this, list
      ensures Valid() && (list == old(list) || fresh(list)) && handles == old(handles) - Just(old_) + {h}
      ensures old_ != null ==> old_ in old(handles) && Same(old_, h.key, h.hash)
      ensures old_ == null ==> forall g :: g in old(handles) ==> !Same(g, h.key, h.hash)
    {
      var j := FindPointer(h.key, h.hash);
      var b := Bucket(h.hash, length);
      old_ := At(list[b], j);
      if old_ == null { NotThere(h.key, h.hash); }
      ghost var chains := list[..];
      PutPlaced(chains, handles, b, j, h);
      CountInserted(handles, old_, h);
      list[b] := Put(list[b], j, h);
      assert list[..] == chains[b := Put(chains[b], j, h)];
      handles := handles - Just(old_) + {h};
      if old_ == null {
        Grow();
      }
    }

    /** Counts an entry just linked in, and resizes when there are more entries than buckets. */
    method Grow()
      requires length == list.Length > 0 && elems + 1 == |handles| && Placed(list[..], handles)
      modifies this
      ensures Valid() && handles == old(handles) && (list == old(list) || fresh(list))
    {
      elems := elems + 1;
      if elems > length {
        Resize();
      }
    }

    method Remove(key: Bytes, hash: nat) returns (result: LRUHandle?)
      requires Valid()
      modifies this, list
      ensures Valid() && list == old(list) && handles == old(handles) - Just(result)
      ensures result != null ==> result in old(handles) && Same(result, key, hash)
      ensures result == null ==> forall g :: g in old(handles) ==> !Same(g, key, hash)
    {
      var j := FindPointer(key, hash);
      var b := Bucket(hash, length);
      result := At(list[b], j);
      if result == null {
        NotThere(key, hash);
      } else {
        ghost var chains := list[..];
        CutPlaced(chains, handles, b, j);
        list[b] := Cut(list[b], j);
        assert list[..] == chains[b := Cut(chains[b], j)];
        handles := handles - {result};
        elems := elems - 1;
      }
    }

    /** Pushes the entries of one chain onto their chains in a new table. */
    method MoveChain(c: seq<LRUHandle>, newList: array<seq<LRUHandle>>, ghost moved: set<LRUHandle>)
      requires newList.Length > 0 && Placed(newList[..], moved) && moved <= handles && Distinct(handles)
      requires NoTwins(c) && forall k :: 0 <= k < |c| ==> c[k] in handles && c[k] !in moved
      modifies newList
      ensures Placed(newList[..], moved + set k | 0 <= k < |c| :: c[k])
    {
      ghost var now := moved;
      for j := 0 to |c|
        invariant Placed(newList[..], now) && now <= handles
        invariant now == moved + (set k | 0 <= k < j :: c[k])
      {
        var h := c[j];
        var b := Bucket(h.hash, newList.Length);
        assert forall k :: 0 <= k < j ==> !Same(c[k], h.key, h.hash);
        ghost var chains := newList[..];
        PushPlaced(chains, now, handles, b, h);
        newList[b] := [h] + newList[b];
        assert newList[..] == chains[b := [h] + chains[b]];
        now := now + {h};
      }
    }

    /** Moves every entry to a table with at least as many buckets as entries. */
    method Resize()
      requires Valid()
      modifies this
      ensures Valid() && fresh(list) && handles == old(handles) && elems <= length
    {
      hide Same, Bucket;
      var newLength := 4;
      while newLength < elems
        invariant newLength >= 4
      {
        newLength := newLength * 2;
      }
      var newList := new seq<LRUHandle>[newLength](i => []);
      forall g, h | g in handles && h in handles && Same(g, h.key, h.hash) ensures g == h { OneOfAKind(g, h); }
      ghost var moved: set<LRUHandle> := {};
      for i := 0 to length
        invariant list == old(list) && list[..] == old(list[..]) && newList != list && newList.Length == newLength
        invariant length == old(length) && elems == old(elems) && handles == old(handles)
        invariant Placed(newList[..], moved)
        invariant forall h :: h in moved <==> h in handles && Bucket(h.hash, length) < i
      {
        var c := list[i];
        ChainMembers(i);
        MoveChain(c, newList, moved);
        moved := moved + set k | 0 <= k < |c| :: c[k];
      }
      assert moved == handles;
      list, length := newList, newLength;
    }

    lemma ChainMembers(i: nat)
      requires Valid() && i < length
      ensures NoTwins(list[i])
      ensures forall h :: h in (set k | 0 <= k < |list[i]| :: list[i][k]) <==>
        h in handles && Bucket(h.hash, length) == i
    {
      var c := list[..][i];
      assert InBucket(c, length, i);
      forall h
        ensures h in (set k | 0 <= k < |list[i]| :: list[i][k]) <==> h in handles && Bucket(h.hash, length) == i
      {
        if h in handles && Bucket(h.hash, length) == i {
          assert h in c;
        }
      }
    }
  }

  lemma CountInserted(handles: set<LRUHandle>, old_: LRUHandle?, h: LRUHandle)
    requires h !in handles && Just(old_) <= handles
    ensures |handles - Just(old_) + {h}| == |handles| + if old_ == null then 1 else 0
  {
  }

  ghost predicate Distinct(handles: set<LRUHandle>) {
    forall g, h :: g in handles && h in handles && Same(g, h.key, h.hash) ==> g == h
  }

  /** Pushing one more entry on the front of its chain. */
  lemma PushPlaced(chains: seq<seq<LRUHandle>>, moved: set<LRUHandle>, handles: set<LRUHandle>, b: nat, h: LRUHandle)
    requires Placed(chains, moved) && moved <= handles && h in handles && h !in moved && Distinct(handles)
    requires b == Bucket(h.hash, |chains|)
    ensures Placed(chains[b := [h] + chains[b]], moved + {h})
  {
    hide Bucket, Same;
    var c, d, chains' := chains[b], [h] + chains[b], chains[b := [h] + chains[b]];
    forall k | 0 <= k < |c| ensures !Same(h, c[k].key, c[k].hash) && Bucket(c[k].hash, |chains|) == b {
      assert c[k] in moved && InBucket(c, |chains|, b);
    }
    PushInBucket(c, |chains|, b, h);
    forall a | 0 <= a < |chains'| ensures InBucket(chains'[a], |chains'|, a) {
      assert InBucket(chains[a], |chains|, a);
    }
    forall x | x in moved + {h} ensures x in chains'[Bucket(x.hash, |chains'|)] {
      if x == h {
        assert d[0] == h;
      } else {
        assert x in chains[Bucket(x.hash, |chains|)];
      }
    }
  }

  lemma PushInBucket(c: seq<LRUHandle>, length: nat, b: nat, h: LRUHandle)
    requires length > 0 && InBucket(c, length, b) && Bucket(h.hash, length) == b
    requires forall k :: 0 <= k < |c| ==> !Same(h, c[k].key, c[k].hash)
    ensures InBucket([h] + c, length, b)
  {
  }
}
