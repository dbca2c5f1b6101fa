/** Calls on the cache in any order (util/cache.cc): the list is always in order of last use, so
    what eviction takes is least recently used, and an entry that a caller holds stays allocated.
  */
module CacheRuns {
  import opened Keys
  import opened HandleTables
  import opened Cache

  /** Release gives back the handle that an earlier call returned. */
  datatype Call =
    | Insert(key: Bytes, hash: nat, value: Bytes, charge: nat)
    | Lookup(key: Bytes, hash: nat)
    | Release(call: nat)
    | Erase(key: Bytes, hash: nat)

  /** Call `t` is the last that inserted or found `h`; Release and Erase return nothing. */
  ghost predicate LastUse(results: seq<LRUHandle?>, h: LRUHandle, t: nat) {
    t < |results| && results[t] == h && forall u :: t < u < |results| ==> results[u] != h
  }

  /** `x` was last used before `y`. */
  ghost predicate UsedBefore(results: seq<LRUHandle?>, x: LRUHandle, y: LRUHandle) {
    exists s, t :: s < t && LastUse(results, x, s) && LastUse(results, y, t)
  }

  ghost predicate Used(results: seq<LRUHandle?>, h: LRUHandle) {
    exists t :: LastUse(results, h, t)
  }

  /** The list is in order of last use. */
  ghost predicate ByLastUse(order: seq<LRUHandle>, results: seq<LRUHandle?>) {
    (forall i :: 0 <= i < |order| ==> Used(results, order[i])) &&
    forall i, j :: 0 <= i < j < |order| ==> UsedBefore(results, order[i], order[j])
  }

  // ---------- what calls do to the order ----------

  lemma UsedNow(order: seq<LRUHandle>, results: seq<LRUHandle?>, e: LRUHandle)
    requires ByLastUse(order, results) && e !in order
    ensures ByLastUse(order + [e], results + [e])
  {
    var now, results', order' := |results|, results + [e], order + [e];
    assert LastUse(results', e, now);
    forall i | 0 <= i < |order| ensures UsedBefore(results', order[i], e) {
      assert Used(results, order[i]);
      var t :| LastUse(results, order[i], t);
      assert LastUse(results', order[i], t);
    }
    forall i, j | 0 <= i < j < |order| ensures UsedBefore(results', order[i], order[j]) {
      assert order[i] in order && order[j] in order;
      StillBefore(results, e, order[i], order[j]);
    }
    forall i | 0 <= i < |order'| ensures Used(results', order'[i]) {
      if i < |order| {
        assert Used(results, order[i]);
        var t :| LastUse(results, order[i], t);
        assert LastUse(results', order[i], t);
      }
    }
  }

  lemma StillBefore(results: seq<LRUHandle?>, e: LRUHandle?, x: LRUHandle, y: LRUHandle)
    requires UsedBefore(results, x, y) && e != x && e != y
    ensures UsedBefore(results + [e], x, y)
  {
    var s, t :| s < t && LastUse(results, x, s) && LastUse(results, y, t);
    assert LastUse(results + [e], x, s) && LastUse(results + [e], y, t);
  }

  lemma NotUsed(order: seq<LRUHandle>, results: seq<LRUHandle?>)
    requires ByLastUse(order, results)
    ensures ByLastUse(order, results + [null])
  {
    var results' := results + [null];
    forall i | 0 <= i < |order| ensures Used(results', order[i]) {
      assert Used(results, order[i]);
      var t :| LastUse(results, order[i], t);
      assert LastUse(results', order[i], t);
    }
    forall i, j | 0 <= i < j < |order| ensures UsedBefore(results', order[i], order[j]) {
      StillBefore(results, null, order[i], order[j]);
    }
  }

  lemma CutByLastUse(order: seq<LRUHandle>, results: seq<LRUHandle?>, e: LRUHandle, rest: seq<LRUHandle>)
    requires ByLastUse(order, results) && NoRepeats(order) && CutOut(order, e, rest)
    ensures ByLastUse(rest, results) && e !in rest
  {
    var i :| 0 <= i < |order| && order[i] == e && rest == order[..i] + order[i + 1..];
    assert forall k :: 0 <= k < |rest| ==> rest[k] == order[if k < i then k else k + 1];
  }

  lemma SuffixByLastUse(order: seq<LRUHandle>, results: seq<LRUHandle?>, n: nat)
    requires ByLastUse(order, results) && n <= |order|
    ensures ByLastUse(order[n..], results)
  {
  }

  lemma InsertedByLastUse(order: seq<LRUHandle>, results: seq<LRUHandle?>, order': seq<LRUHandle>, e: LRUHandle,
                          replaced: LRUHandle?)
    requires ByLastUse(order, results) && NoRepeats(order) && e !in order && Inserted(order, order', e, replaced)
    ensures ByLastUse(order', results + [e])
    ensures forall x, y :: x in order && x !in order' && x != replaced && y in order' ==>
      UsedBefore(results + [e], x, y)
  {
    var rest, n := RestOf(order, order', e, replaced);
    if replaced != null {
      CutByLastUse(order, results, replaced, rest);
    }
    UsedNow(rest, results, e);
    SuffixByLastUse(rest + [e], results + [e], n);
    forall x, y | x in order && x !in order' && x != replaced && y in order' ensures UsedBefore(results + [e], x, y) {
      InRest(order, replaced, rest, x);
      GoneBefore(rest + [e], results + [e], n, x, y);
    }
  }

  lemma RestOf(order: seq<LRUHandle>, order': seq<LRUHandle>, e: LRUHandle, replaced: LRUHandle?)
    returns (rest: seq<LRUHandle>, n: nat)
    requires Inserted(order, order', e, replaced)
    ensures if replaced == null then rest == order else CutOut(order, replaced, rest)
    ensures n <= |rest| + 1 && order' == (rest + [e])[n..]
  {
    rest := order;
    if replaced != null {
      var i :| 0 <= i < |order| && order[i] == replaced && OldestGone(order[..i] + order[i + 1..] + [e], order');
      rest := order[..i] + order[i + 1..];
    }
    assert OldestGone(rest + [e], order');
    n :| n <= |rest| + 1 && order' == (rest + [e])[n..];
  }

  /** What is gone from the oldest end was used before what stays. */
  lemma GoneBefore(all: seq<LRUHandle>, results: seq<LRUHandle?>, n: nat, x: LRUHandle, y: LRUHandle)
    requires ByLastUse(all, results) && n <= |all| && x in all && x !in all[n..] && y in all[n..]
    ensures UsedBefore(results, x, y)
  {
    assert all == all[..n] + all[n..];
    var l :| 0 <= l < |all[n..]| && all[n..][l] == y;
    var m :| 0 <= m < n && all[..n][m] == x;
    assert all[n + l] == y;
  }

  lemma CutMembers(order: seq<LRUHandle>, e: LRUHandle, rest: seq<LRUHandle>)
    requires CutOut(order, e, rest)
    ensures forall h :: h in rest ==> h in order
  {
  }

  lemma InsertedMembers(order: seq<LRUHandle>, order': seq<LRUHandle>, e: LRUHandle, replaced: LRUHandle?)
    requires Inserted(order, order', e, replaced)
    ensures forall h :: h in order' ==> h in order || h == e
  {
    var rest, n := RestOf(order, order', e, replaced);
    if replaced != null { CutMembers(order, replaced, rest); }
    assert forall h :: h in (rest + [e])[n..] ==> h in rest + [e];
  }

  lemma InRest(order: seq<LRUHandle>, replaced: LRUHandle?, rest: seq<LRUHandle>, x: LRUHandle)
    requires x in order && x != replaced
    requires if replaced == null then rest == order else CutOut(order, replaced, rest)
    ensures x in rest
  {
    if replaced != null {
      var i :| 0 <= i < |order| && order[i] == replaced && rest == order[..i] + order[i + 1..];
      var k :| 0 <= k < |order| && order[k] == x;
      assert rest[if k < i then k else k - 1] == x;
    }
  }

  // ---------- any sequence of calls ----------

  /** The handles that callers have not given back are the ones the cache counts, and their entries
      are allocated. */
  ghost predicate HandlesOut(b: Books, out: multiset<LRUHandle>) {
    (forall h :: h in out ==> h in b.live) && forall h :: h in b.refs ==> out[h] == Held(b, h)
  }

  lemma HeldIsLive(b: Books, h: LRUHandle)
    requires BooksOk(b)
    ensures Held(b, h) > 0 ==> h in b.live
    ensures h in b.live ==> h in b.refs
  {
    assert h in b.live <==> h in Elems(b.live);
  }

  lemma NotHeld(b: Books, e: LRUHandle)
    requires e !in b.refs
    ensures Held(b, e) == 0
  {
  }

  lemma OutIsHeld(b: Books, out: multiset<LRUHandle>, e: LRUHandle)
    requires BooksOk(b) && HandlesOut(b, out) && e in out
    ensures e in b.live && Held(b, e) > 0
  {
    HeldIsLive(b, e);
  }

  /** A call that gives out the handles `more` and takes back the handles `less`. */
  lemma HandlesAfterCall(b: Books, b': Books, out: multiset<LRUHandle>, more: multiset<LRUHandle>,
                         less: multiset<LRUHandle>)
    requires BooksOk(b) && BooksOk(b') && HandlesOut(b, out) && less <= out
    requires forall x :: x in b.refs || x in b'.refs ==> Held(b', x) == Held(b, x) + more[x] - less[x]
    requires forall x :: x in more ==> x in b'.refs
    ensures HandlesOut(b', out + more - less)
  {
    hide BooksOk;
    var out' := out + more - less;
    forall x | x in b'.refs ensures out'[x] == Held(b', x) {
      HeldIsLive(b, x);
      assert x !in b.refs ==> x !in out;
    }
    forall x | x in out' ensures x in b'.live {
      HeldIsLive(b, x);
      HeldIsLive(b', x);
      assert x in out || x in more;
    }
  }

  /** One call; a handle is released only while it is out. */
  method Perform(cache: LRUCache, call: Call, results: seq<LRUHandle?>, out: multiset<LRUHandle>)
    returns (r: LRUHandle?, out': multiset<LRUHandle>)
    requires cache.Valid() && ByLastUse(cache.order, results) && HandlesOut(cache.TheBooks(), out)
    modifies cache, cache.table, cache.table.list, cache.order, cache.lru
    ensures cache.Valid() && ByLastUse(cache.order, results + [r]) && HandlesOut(cache.TheBooks(), out')
    ensures call.Release? || call.Erase? ==> r == null
    ensures call.Lookup? ==> if r == null then forall h :: h in old(cache.order) ==> !Same(h, call.key, call.hash)
                             else r in old(cache.order) && Same(r, call.key, call.hash)
    ensures call.Insert? ==> r != null && fresh(r) && Same(r, call.key, call.hash) && r.value == call.value
    ensures call.Insert? ==>
      forall x, y :: x in old(cache.order) && x !in cache.order && !Same(x, call.key, call.hash) && y in cache.order ==>
        UsedBefore(results + [r], x, y)
    ensures cache.table.list == old(cache.table.list) || fresh(cache.table.list)
    ensures forall h :: h in cache.order ==> h in old(cache.order) || fresh(h)
  {
    out' := out;
    match call
    case Insert(key, hash, value, charge) =>
      r, out' := PerformInsert(cache, key, hash, value, charge, results, out);
    case Lookup(key, hash) =>
      r, out' := PerformLookup(cache, key, hash, results, out);
    case Release(t) =>
      r := null;
      NotUsed(cache.order, results);
      if t < |results| && results[t] != null && results[t] in out {
        out' := PerformRelease(cache, results[t], out);
      }
    case Erase(key, hash) =>
      r := null;
      PerformErase(cache, key, hash, results, out);
  }

  method PerformInsert(cache: LRUCache, key: Bytes, hash: nat, value: Bytes, charge: nat, results: seq<LRUHandle?>,
                       out: multiset<LRUHandle>)
    returns (r: LRUHandle, out': multiset<LRUHandle>)
    requires cache.Valid() && ByLastUse(cache.order, results) && HandlesOut(cache.TheBooks(), out)
    modifies cache, cache.table, cache.table.list, cache.order, cache.lru
    ensures cache.Valid() && ByLastUse(cache.order, results + [r]) && HandlesOut(cache.TheBooks(), out')
    ensures fresh(r) && Same(r, key, hash) && r.value == value
    ensures forall x, y :: x in old(cache.order) && x !in cache.order && !Same(x, key, hash) && y in cache.order ==>
      UsedBefore(results + [r], x, y)
    ensures cache.table.list == old(cache.table.list) || fresh(cache.table.list)
    ensures forall h :: h in cache.order ==> h in old(cache.order) || fresh(h)
  {
    hide Ring, Held, Evict, Entered, Touch, Drop, Unref, ByLastUse, HandlesOut, CutOut, Inserted, Without, BooksOk,
      Elems;
    ghost var b := cache.TheBooks();
    NoneTwice(b);
    ghost var replaced: LRUHandle?;
    r, replaced := cache.Insert(key, hash, value, charge);
    out' := out + multiset{r};
    InsertedByLastUse(b.order, results, cache.order, r, replaced);
    InsertedMembers(b.order, cache.order, r, replaced);
    NotHeld(b, r);
    assert out + multiset{r} - multiset{} == out';
    HandlesAfterCall(b, cache.TheBooks(), out, multiset{r}, multiset{});
  }

  method PerformLookup(cache: LRUCache, key: Bytes, hash: nat, results: seq<LRUHandle?>, out: multiset<LRUHandle>)
    returns (r: LRUHandle?, out': multiset<LRUHandle>)
    requires cache.Valid() && ByLastUse(cache.order, results) && HandlesOut(cache.TheBooks(), out)
    modifies cache, cache.order, cache.lru
    ensures cache.Valid() && ByLastUse(cache.order, results + [r]) && HandlesOut(cache.TheBooks(), out')
    ensures if r == null then forall h :: h in old(cache.order) ==> !Same(h, key, hash)
            else r in old(cache.order) && Same(r, key, hash)
    ensures cache.table.list == old(cache.table.list)
    ensures forall h :: h in cache.order ==> h in old(cache.order)
  {
    hide Ring, Held, Evict, Entered, Touch, Drop, Unref, ByLastUse, HandlesOut, CutOut, Inserted, Without, BooksOk,
      Elems;
    ghost var b := cache.TheBooks();
    NoneTwice(b);
    r := cache.Lookup(key, hash);
    if r == null {
      out' := out;
      NotUsed(b.order, results);
    } else {
      out' := out + multiset{r};
      ghost var rest :| CutOut(b.order, r, rest) && cache.order == rest + [r];
      CutByLastUse(b.order, results, r, rest);
      CutMembers(b.order, r, rest);
      UsedNow(rest, results, r);
      assert out + multiset{r} - multiset{} == out';
      HandlesAfterCall(b, cache.TheBooks(), out, multiset{r}, multiset{});
    }
  }

  method PerformRelease(cache: LRUCache, e: LRUHandle, out: multiset<LRUHandle>) returns (out': multiset<LRUHandle>)
    requires cache.Valid() && HandlesOut(cache.TheBooks(), out) && e in out
    modifies cache
    ensures cache.Valid() && HandlesOut(cache.TheBooks(), out') && cache.order == old(cache.order)
    ensures cache.table.list == old(cache.table.list)
  {
    hide Ring, Held, Evict, Entered, Touch, Drop, Unref, ByLastUse, HandlesOut, CutOut, Inserted, Without, BooksOk,
      Elems;
    ghost var b := cache.TheBooks();
    OutIsHeld(b, out, e);
    cache.Release(e);
    out' := out - multiset{e};
    assert out + multiset{} - multiset{e} == out';
    HandlesAfterCall(b, cache.TheBooks(), out, multiset{}, multiset{e});
  }

  method PerformErase(cache: LRUCache, key: Bytes, hash: nat, ghost results: seq<LRUHandle?>,
                      ghost out: multiset<LRUHandle>)
    requires cache.Valid() && ByLastUse(cache.order, results) && HandlesOut(cache.TheBooks(), out)
    modifies cache, cache.table, cache.table.list, cache.order, cache.lru
    ensures cache.Valid() && ByLastUse(cache.order, results + [null]) && HandlesOut(cache.TheBooks(), out)
    ensures cache.table.list == old(cache.table.list)
    ensures forall h :: h in cache.order ==> h in old(cache.order)
  {
    hide Ring, Held, Evict, Entered, Touch, Drop, Unref, ByLastUse, HandlesOut, CutOut, Inserted, Without, BooksOk,
      Elems;
    ghost var b := cache.TheBooks();
    NoneTwice(b);
    cache.Erase(key, hash);
    if h: LRUHandle :| h in b.order && Same(h, key, hash) {
      CutByLastUse(b.order, results, h, cache.order);
      CutMembers(b.order, h, cache.order);
    }
    NotUsed(cache.order, results);
    assert out + multiset{} - multiset{} == out;
    HandlesAfterCall(b, cache.TheBooks(), out, multiset{}, multiset{});
  }

  /** Any sequence of calls on a new cache: whatever the calls, the list ends up in order of last use and
      every handle still out is to an allocated entry. */
  method Drive(capacity: nat, calls: seq<Call>)
    returns (cache: LRUCache, results: seq<LRUHandle?>, out: multiset<LRUHandle>)
    ensures cache.Valid() && |results| == |calls| && ByLastUse(cache.order, results)
    ensures HandlesOut(cache.TheBooks(), out)
  {
    hide BooksOk, Ring, LastUse;
    cache := new LRUCache(capacity);
    results, out := [], multiset{};
    for i := 0 to |calls|
      invariant |results| == i && cache.Valid() && ByLastUse(cache.order, results)
      invariant HandlesOut(cache.TheBooks(), out)
      invariant fresh(cache) && fresh(cache.table) && fresh(cache.table.list) && fresh(cache.lru)
      invariant forall h :: h in cache.order ==> fresh(h)
    {
      assert forall k :: 0 <= k < |cache.order| ==> cache.order[k] in cache.order;
      var r;
      r, out := Perform(cache, calls[i], results, out);
      results := results + [r];
    }
  }
}
