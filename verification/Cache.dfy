/** LRUCache (util/cache.cc): one shard of the cache.  The hash table, the circular list of cached
    entries and the reference counts are proved to agree after every call.
  */
module Cache {
  import opened Keys
  import opened HandleTables
  import opened Sequences

  function Without(s: seq<LRUHandle>, e: LRUHandle): seq<LRUHandle> {
    if s == [] then [] else if s[0] == e then s[1..] else [s[0]] + Without(s[1..], e)
  }

  function Charges(s: seq<LRUHandle>): nat {
    if s == [] then 0 else s[0].charge + Charges(s[1..])
  }

  ghost predicate NoRepeats(s: seq<LRUHandle>) {
    forall i, j :: 0 <= i < j < |s| ==> s[i] != s[j]
  }

  function Elems(s: seq<LRUHandle>): set<LRUHandle> {
    set h | h in s
  }

  lemma WithoutElems(s: seq<LRUHandle>, e: LRUHandle)
    requires NoRepeats(s)
    ensures NoRepeats(Without(s, e)) && Elems(Without(s, e)) == Elems(s) - {e}
  {
    hide Without;
    if e in s {
      var i :| 0 <= i < |s| && s[i] == e;
      WithoutAt(s, i);
      var r := s[..i] + s[i + 1..];
      assert forall k :: 0 <= k < |r| ==> r[k] == if k < i then s[k] else s[k + 1];
      forall x | x in s && x != e ensures x in r {
        var k :| 0 <= k < |s| && s[k] == x;
        assert r[if k < i then k else k - 1] == x;
      }
    } else {
      WithoutNone(s, e);
    }
  }

  lemma MembersAreElems(s: seq<LRUHandle>)
    ensures forall h :: h in s <==> h in Elems(s)
  {
  }

  lemma WithoutMembers(s: seq<LRUHandle>, e: LRUHandle)
    requires NoRepeats(s)
    ensures e !in Without(s, e) && forall h :: h in Without(s, e) ==> h in s
  {
    WithoutElems(s, e);
    forall h | h in Without(s, e) ensures h in s && h != e {
      assert h in Elems(Without(s, e));
    }
  }

  lemma WithoutCharges(s: seq<LRUHandle>, e: LRUHandle)
    requires NoRepeats(s) && e in s
    ensures Charges(Without(s, e)) == Charges(s) - e.charge
  {
    var i :| 0 <= i < |s| && s[i] == e;
    WithoutAt(s, i);
    ChargesCut(s, i);
  }

  lemma SnocElems(s: seq<LRUHandle>, e: LRUHandle)
    requires NoRepeats(s) && e !in Elems(s)
    ensures NoRepeats(s + [e]) && Elems(s + [e]) == Elems(s) + {e}
  {
    assert forall k :: 0 <= k < |s| ==> s[k] in Elems(s);
  }

  lemma {:induction false} WithoutNone(s: seq<LRUHandle>, e: LRUHandle)
    requires e !in s
    ensures Without(s, e) == s
  {
    if s == [] {
    } else {
      WithoutNone(s[1..], e);
    }
  }

  lemma {:induction false} ChargesCut(s: seq<LRUHandle>, i: nat)
    requires i < |s|
    ensures Charges(s[..i] + s[i + 1..]) == Charges(s) - s[i].charge
  {
    if i > 0 {
      ChargesCut(s[1..], i - 1);
      assert s[1..][..i - 1] + s[1..][i..] == (s[..i] + s[i + 1..])[1..];
    } else {
      assert s[..0] + s[1..] == s[1..];
    }
  }

  lemma {:induction false} WithoutAt(s: seq<LRUHandle>, i: nat)
    requires NoRepeats(s) && i < |s|
    ensures Without(s, s[i]) == s[..i] + s[i + 1..]
  {
    if i == 0 {
    } else {
      WithoutAt(s[1..], i - 1);
      assert s[1..][..i - 1] == s[1..i] && s[1..][i..] == s[i + 1..];
    }
  }

  lemma {:induction false} ChargesSnoc(s: seq<LRUHandle>, e: LRUHandle)
    ensures Charges(s + [e]) == Charges(s) + e.charge
  {
    if s == [] {
    } else {
      assert (s + [e])[1..] == s[1..] + [e];
      ChargesSnoc(s[1..], e);
    }
  }

  /** `r` is `s` without its entry `e`, the others in their order. */
  ghost predicate CutOut(s: seq<LRUHandle>, e: LRUHandle, r: seq<LRUHandle>) {
    exists i :: 0 <= i < |s| && s[i] == e && r == s[..i] + s[i + 1..]
  }

  lemma WithoutCuts(s: seq<LRUHandle>, e: LRUHandle)
    requires NoRepeats(s) && e in s
    ensures CutOut(s, e, Without(s, e))
  {
    var i :| 0 <= i < |s| && s[i] == e;
    WithoutAt(s, i);
  }

  /** The circular list through `head` holds exactly `order`. */
  ghost predicate Ring(head: LRUHandle, order: seq<LRUHandle>)
    reads head, order
  {
    NoRepeats(order) && head !in order &&
    (if order == [] then Joined(head, head) else Joined(head, order[0]) && Joined(order[|order| - 1], head)) &&
    forall i, j {:trigger Joined(order[i], order[j])} :: 0 <= i < j < |order| && j == i + 1 ==>
      Joined(order[i], order[j])
  }

  ghost predicate Joined(a: LRUHandle, b: LRUHandle) reads a, b {
    a.next == b && b.prev == a
  }

  /** The entries around entry `i`, or the head at either end, are no other entries. */
  lemma Neighbours(head: LRUHandle, order: seq<LRUHandle>, i: nat, before: LRUHandle, after: LRUHandle)
    requires NoRepeats(order) && head !in order && i < |order|
    requires before == (if i == 0 then head else order[i - 1]) &&
      after == (if i + 1 == |order| then head else order[i + 1])
    ensures forall k {:trigger order[k]} :: 0 <= k < |order| ==>
      (order[k] == before ==> k + 1 == i) && (order[k] == after ==> k == i + 1) && (order[k] == order[i] ==> k == i) &&
        order[k] != head
  {
    assert forall k :: 0 <= k < |order| ==> order[k] in order;
  }

  /** LRU_Remove. */
  method Unlink(e: LRUHandle, head: LRUHandle, ghost order: seq<LRUHandle>, ghost i: nat)
    requires Ring(head, order) && i < |order| && order[i] == e
    modifies head`next, head`prev, order`next, order`prev
    ensures Ring(head, Without(order, e))
  {
    hide Without, Elems;
    WithoutAt(order, i);
    ghost var n := |order|;
    ghost var rest := order[..i] + order[i + 1..];
    ghost var before, after := if i == 0 then head else order[i - 1], if i + 1 == n then head else order[i + 1];
    assert Joined(before, e) && Joined(e, after);
    Neighbours(head, order, i, before, after);
    e.next.prev := e.prev;
    e.prev.next := e.next;
    assert Joined(before, after);
    forall k, l | 0 <= k < l < |rest| && l == k + 1 ensures Joined(rest[k], rest[l]) {
      if l != i {
        var m := if k < i then k else k + 1;
        assert rest[k] == order[m] && rest[l] == order[m + 1];
        assert old(Joined(order[m], order[m + 1]));
      }
    }
    assert rest != [] ==> Joined(head, rest[0]) && Joined(rest[|rest| - 1], head) by {
      assert old(Joined(head, order[0])) && old(Joined(order[n - 1], head));
    }
  }

  /** LRU_Append: makes `e` the newest entry. */
  method LinkNewest(e: LRUHandle, head: LRUHandle, ghost order: seq<LRUHandle>)
    requires Ring(head, order) && e !in order && e != head
    modifies head`next, head`prev, order`next, order`prev, e`next, e`prev
    ensures Ring(head, order + [e])
  {
    e.next := head;
    e.prev := head.prev;
    e.prev.next := e;
    e.next.prev := e;
    forall k, l | 0 <= k < l < |order| && l == k + 1 ensures Joined(order[k], order[l]) {
      assert old(Joined(order[k], order[l]));
    }
  }

  // ---------- the books of the cache ----------

  /** Cached entries, oldest first; entries not yet freed with their reference counts; the charge of
      those; the entries passed to their deleter, in order. */
  datatype Books = Books(order: seq<LRUHandle>, live: seq<LRUHandle>, refs: map<LRUHandle, nat>, usage: nat,
                         deleted: seq<LRUHandle>)

  /** References the cache itself holds. */
  function Cached(b: Books, e: LRUHandle): nat {
    if e in b.order then 1 else 0
  }

  /** Handles that callers hold. */
  function Held(b: Books, e: LRUHandle): int {
    if e in b.refs then b.refs[e] - Cached(b, e) else 0
  }

  /** Reference counts exist for the allocated entries, and usage is their total charge. */
  ghost predicate BooksOk(b: Books) {
    NoRepeats(b.order) && NoRepeats(b.live) && b.usage == Charges(b.live) && Elems(b.live) == b.refs.Keys &&
    Elems(b.order) <= b.refs.Keys && forall e :: e in b.refs ==> b.refs[e] >= 1
  }

  lemma NoneTwice(b: Books)
    requires BooksOk(b)
    ensures NoRepeats(b.order) && NoRepeats(b.live)
  {
  }

  /** An entry is allocated exactly while it is cached or held. */
  lemma AllocatedMeansUsed(b: Books, e: LRUHandle)
    requires BooksOk(b)
    ensures Held(b, e) >= 0 && (e in b.live <==> e in b.order || Held(b, e) > 0)
  {
    assert e in b.live <==> e in Elems(b.live);
    assert e in b.order <==> e in Elems(b.order);
  }

  /** One reference to `e` less; the last one frees it. */
  function Unref(b: Books, e: LRUHandle): Books
    requires e in b.refs && b.refs[e] > 0
  {
    if b.refs[e] > 1 then b.(refs := b.refs[e := b.refs[e] - 1])
    else b.(live := Without(b.live, e), refs := b.refs - {e},
            usage := if b.usage >= e.charge then b.usage - e.charge else 0, deleted := b.deleted + [e])
  }

  function Drop(b: Books, e: LRUHandle): Books
    requires e in b.refs && b.refs[e] > 0
  {
    Unref(b.(order := Without(b.order, e)), e)
  }

  /** A lookup that hits: one more handle, and the entry becomes the newest. */
  function Touch(b: Books, e: LRUHandle): Books
    requires e in b.refs
  {
    b.(order := Without(b.order, e) + [e], refs := b.refs[e := b.refs[e] + 1])
  }

  function Add(b: Books, e: LRUHandle): Books {
    b.(order := b.order + [e], live := b.live + [e], refs := b.refs[e := 2], usage := b.usage + e.charge)
  }

  /** Insert, up to eviction: `replaced` is the entry that had the new entry's key, if any. */
  function Entered(b: Books, e: LRUHandle, replaced: LRUHandle?): Books {
    var c := Add(b, e);
    if replaced != null && replaced in c.refs && c.refs[replaced] > 0 then Drop(c, replaced) else c
  }

  lemma UnrefOk(b: Books, e: LRUHandle)
    requires BooksOk(b) && e in b.refs && (b.refs[e] == 1 ==> e !in b.order)
    ensures BooksOk(Unref(b, e)) && Held(Unref(b, e), e) == Held(b, e) - 1
    ensures b.refs[e] == 1 ==> b.usage >= e.charge
    ensures e in Unref(b, e).live <==> Cached(b, e) + Held(b, e) > 1
    ensures Unref(b, e).deleted == b.deleted + if Cached(b, e) + Held(b, e) == 1 then [e] else []
    ensures forall x :: x != e ==> Held(Unref(b, e), x) == Held(b, x)
  {
    assert e in Elems(b.live);
    WithoutElems(b.live, e);
    WithoutCharges(b.live, e);
    assert e in Unref(b, e).live <==> e in Elems(Unref(b, e).live);
    assert b.refs[e] == 1 ==> e !in Elems(b.order);
  }

  lemma HeldIsCounted(b: Books, e: LRUHandle)
    requires Held(b, e) > 0
    ensures e in b.refs
  {
  }

  lemma LiveIsCounted(b: Books, e: LRUHandle)
    requires BooksOk(b) && e in b.live
    ensures e in b.refs && b.refs[e] > 0
  {
    assert e in Elems(b.live);
  }

  /** What Drop does before the reference is given up. */
  lemma UnlinkOk(b: Books, e: LRUHandle)
    requires BooksOk(b) && e in b.order
    ensures var c := b.(order := Without(b.order, e));
      BooksOk(c) && e !in c.order && Held(c, e) == Held(b, e) + 1 && e in b.refs && b.refs[e] > 0 &&
      forall x :: x != e ==> Held(c, x) == Held(b, x)
  {
    WithoutElems(b.order, e);
    var c := b.(order := Without(b.order, e));
    assert e in Elems(b.order) && e !in Elems(c.order);
    forall x | x != e ensures Held(c, x) == Held(b, x) {
      assert x in c.order <==> x in Elems(c.order);
      assert x in b.order <==> x in Elems(b.order);
    }
  }

  lemma DropOk(b: Books, e: LRUHandle)
    requires BooksOk(b) && e in b.order
    ensures e in b.refs && b.refs[e] > 0 && BooksOk(Drop(b, e)) && Held(Drop(b, e), e) == Held(b, e)
    ensures b.refs[e] == 1 ==> b.usage >= e.charge
    ensures e in Drop(b, e).live <==> Held(b, e) > 0
    ensures Drop(b, e).deleted == b.deleted + if Held(b, e) == 0 then [e] else []
    ensures Drop(b, e).usage == b.usage - if Held(b, e) == 0 then e.charge else 0
    ensures forall x :: x != e ==> Held(Drop(b, e), x) == Held(b, x)
    ensures CutOut(b.order, e, Drop(b, e).order)
  {
    WithoutCuts(b.order, e);
    UnlinkOk(b, e);
    UnrefOk(b.(order := Without(b.order, e)), e);
  }

  lemma TouchOk(b: Books, e: LRUHandle)
    requires BooksOk(b) && e in b.order
    ensures e in b.refs && BooksOk(Touch(b, e)) && Held(Touch(b, e), e) == Held(b, e) + 1
    ensures Elems(Touch(b, e).order) == Elems(b.order)
    ensures exists rest :: CutOut(b.order, e, rest) && Touch(b, e).order == rest + [e]
    ensures Touch(b, e).refs == b.refs[e := b.refs[e] + 1]
    ensures Touch(b, e).usage == b.usage && Touch(b, e).live == b.live && Touch(b, e).deleted == b.deleted
    ensures forall x :: x != e ==> Held(Touch(b, e), x) == Held(b, x)
  {
    assert e in Elems(b.order);
    WithoutCuts(b.order, e);
    var rest := Without(b.order, e);
    assert CutOut(b.order, e, rest) && Touch(b, e).order == rest + [e];
    forall x | x != e ensures x in Touch(b, e).order <==> x in b.order {
      assert x in Touch(b, e).order <==> x in Elems(Touch(b, e).order);
      assert x in b.order <==> x in Elems(b.order);
    }
    WithoutElems(b.order, e);
    SnocElems(Without(b.order, e), e);
  }

  lemma AddOk(b: Books, e: LRUHandle)
    requires BooksOk(b) && e !in b.refs
    ensures BooksOk(Add(b, e)) && Held(Add(b, e), e) == 1 && Elems(Add(b, e).order) == Elems(b.order) + {e}
    ensures Add(b, e).order == b.order + [e] && Add(b, e).usage == b.usage + e.charge
    ensures Add(b, e).deleted == b.deleted && forall x :: x != e ==> Held(Add(b, e), x) == Held(b, x)
  {
    ChargesSnoc(b.live, e);
    SnocElems(b.live, e);
    SnocElems(b.order, e);
    assert e in Elems(Add(b, e).order);
  }

  // ---------- eviction ----------

  /** Evicts the oldest entries while over capacity. */
  ghost function Evict(b: Books, capacity: nat): (r: Books)
    requires BooksOk(b)
    ensures BooksOk(r)
    decreases |b.order|
  {
    if b.usage > capacity && b.order != [] then
      DropOk(b, b.order[0]);
      Evict(Drop(b, b.order[0]), capacity)
    else b
  }

  /** The first `n` entries that no caller holds: those whose eviction frees them. */
  function Idle(b: Books, n: nat): seq<LRUHandle>
    requires n <= |b.order|
  {
    if n == 0 then [] else Idle(b, n - 1) + if Held(b, b.order[n - 1]) == 0 then [b.order[n - 1]] else []
  }

  /** The oldest entry, if its eviction frees it. */
  function First(b: Books): seq<LRUHandle>
    requires b.order != []
  {
    if Held(b, b.order[0]) == 0 then [b.order[0]] else []
  }

  /** Eviction takes the `n` oldest entries, frees those of them that nobody holds, stops as soon as
      usage fits, and not before. */
  lemma {:induction false} EvictsOldest(b: Books, capacity: nat) returns (n: nat)
    requires BooksOk(b)
    ensures n <= |b.order| && Evicted(b, Evict(b, capacity), capacity, n)
    ensures forall j :: 0 <= j < n ==> b.usage - Charges(Idle(b, j)) > capacity
    decreases |b.order|
  {
    if b.usage > capacity && b.order != [] {
      DropFirst(b);
      var b' := Drop(b, b.order[0]);
      var m := EvictsOldest(b', capacity);
      n := m + 1;
      EvictsMore(b, b', Evict(b', capacity), capacity, m);
    } else {
      n := 0;
      assert b.order[0..] == b.order && b.deleted + [] == b.deleted;
    }
  }

  /** Eviction takes entries off the oldest end and leaves callers' handles alone. */
  lemma {:induction false} EvictKeeps(b: Books, capacity: nat) returns (n: nat)
    requires BooksOk(b)
    ensures n <= |b.order| && Evict(b, capacity).order == b.order[n..]
    ensures Evict(b, capacity).usage <= capacity || Evict(b, capacity).order == []
    ensures forall x :: Held(Evict(b, capacity), x) == Held(b, x)
    decreases |b.order|
  {
    if b.usage > capacity && b.order != [] {
      var b' := Drop(b, b.order[0]);
      DropFirst(b);
      DropOk(b, b.order[0]);
      var m := EvictKeeps(b', capacity);
      n := m + 1;
      assert b.order[1..][m..] == b.order[n..];
    } else {
      n := 0;
    }
  }

  /** A new entry becomes the newest and has one handle out; the entry it replaces is cut out, and
      other entries keep their places and handles. */
  lemma EnteredOk(b: Books, e: LRUHandle, replaced: LRUHandle?)
    requires BooksOk(b) && e !in b.refs && (replaced != null ==> replaced in b.order)
    ensures BooksOk(Entered(b, e, replaced))
    ensures forall x :: Held(Entered(b, e, replaced), x) == if x == e then 1 else Held(b, x)
    ensures replaced == null ==> Entered(b, e, replaced).order == b.order + [e]
    ensures replaced != null ==>
      exists rest :: CutOut(b.order, replaced, rest) && Entered(b, e, replaced).order == rest + [e]
  {
    hide BooksOk, Drop, Add, Held, CutOut;
    AddOk(b, e);
    if replaced != null {
      NotNew(b, e, replaced);
      DropOk(Add(b, e), replaced);
      CutSnoc(b.order, e, replaced, Drop(Add(b, e), replaced).order);
    }
  }

  lemma NotNew(b: Books, e: LRUHandle, replaced: LRUHandle)
    requires BooksOk(b) && e !in b.refs && replaced in b.order
    ensures replaced != e && replaced in Add(b, e).order
  {
    assert replaced in Elems(b.order);
  }

  lemma CutSnoc(s: seq<LRUHandle>, e: LRUHandle, x: LRUHandle, r: seq<LRUHandle>)
    requires CutOut(s + [e], x, r) && x != e
    ensures exists rest :: CutOut(s, x, rest) && r == rest + [e]
  {
    var i :| 0 <= i < |s + [e]| && (s + [e])[i] == x && r == (s + [e])[..i] + (s + [e])[i + 1..];
    var rest := s[..i] + s[i + 1..];
    assert CutOut(s, x, rest) && r == rest + [e];
  }

  /** `r` is what is left of `b` once its `n` oldest entries are evicted, and the cache fits or is empty. */
  ghost predicate Evicted(b: Books, r: Books, capacity: nat, n: nat)
    requires n <= |b.order|
  {
    r.order == b.order[n..] && (r.usage <= capacity || r.order == []) &&
    r.deleted == b.deleted + Idle(b, n) && r.usage == b.usage - Charges(Idle(b, n))
  }

  lemma EvictsMore(b: Books, b': Books, r: Books, capacity: nat, m: nat)
    requires b.order != [] && b'.order == b.order[1..] && b'.deleted == b.deleted + First(b)
    requires b'.usage == b.usage - Charges(First(b)) && forall x :: x in b'.order ==> Held(b', x) == Held(b, x)
    requires m <= |b'.order| && Evicted(b', r, capacity, m) && b.usage > capacity
    requires forall j :: 0 <= j < m ==> b'.usage - Charges(Idle(b', j)) > capacity
    ensures Evicted(b, r, capacity, m + 1)
    ensures forall j :: 0 <= j < m + 1 ==> b.usage - Charges(Idle(b, j)) > capacity
  {
    IdleShift(b, b', m, m + 1);
    assert b.order[1..][m..] == b.order[m + 1..];
    Associative(b.deleted, First(b), Idle(b', m));
    forall j | 0 <= j < m + 1 ensures b.usage - Charges(Idle(b, j)) > capacity {
      if j > 0 {
        IdleShift(b, b', j - 1, j);
      }
    }
  }

  lemma DropFirst(b: Books)
    requires BooksOk(b) && b.order != []
    ensures var e := b.order[0]; e in b.refs && b.refs[e] > 0 && var b' := Drop(b, e);
      BooksOk(b') && b'.order == b.order[1..] && b'.deleted == b.deleted + First(b) &&
      b'.usage == b.usage - Charges(First(b)) && forall x :: x in b'.order ==> Held(b', x) == Held(b, x)
  {
    var e := b.order[0];
    DropOk(b, e);
    WithoutAt(b.order, 0);
    assert Charges([e]) == e.charge;
  }

  lemma {:induction false} ChargesConcat(a: seq<LRUHandle>, b: seq<LRUHandle>)
    ensures Charges(a + b) == Charges(a) + Charges(b)
  {
    if a == [] {
      assert a + b == b;
    } else {
      assert (a + b)[1..] == a[1..] + b;
      ChargesConcat(a[1..], b);
    }
  }

  lemma {:induction false} IdleShift(b: Books, b': Books, j: nat, k: nat)
    requires k == j + 1 <= |b.order| && b'.order == b.order[1..]
    requires forall x :: x in b'.order ==> Held(b', x) == Held(b, x)
    ensures Idle(b, k) == First(b) + Idle(b', j)
    ensures Charges(Idle(b, k)) == Charges(First(b)) + Charges(Idle(b', j))
  {
    if j > 0 {
      IdleShift(b, b', j - 1, j);
      assert b'.order[j - 1] in b'.order;
    }
    assert Idle(b, k) == First(b) + Idle(b', j);
    ChargesConcat(First(b), Idle(b', j));
  }

  // ---------- the cache ----------

  lemma HandlesAfter(before: set<LRUHandle>, after: set<LRUHandle>, cached: set<LRUHandle>, e: LRUHandle,
                     replaced: LRUHandle?)
    requires e !in before && cached == before + {e} && after == before - Just(replaced) + {e}
    requires replaced != null ==> replaced in before
    ensures replaced == null ==> after == cached
    ensures replaced != null ==> replaced in cached && after == cached - {replaced}
  {
  }

  /** The order after an insertion: without the entry replaced, with the new one at the newest end, and
      with the oldest ones evicted. */
  ghost predicate Inserted(before: seq<LRUHandle>, after: seq<LRUHandle>, e: LRUHandle, replaced: LRUHandle?) {
    if replaced == null then OldestGone(before + [e], after)
    else
      exists i ::
        0 <= i < |before| && before[i] == replaced && OldestGone(before[..i] + before[i + 1..] + [e], after)
  }

  ghost predicate OldestGone(s: seq<LRUHandle>, r: seq<LRUHandle>) {
    exists n :: 0 <= n <= |s| && r == s[n..]
  }

  lemma InsertedOk(b: Books, e: LRUHandle, replaced: LRUHandle?, capacity: nat)
    requires BooksOk(b) && e !in b.refs && (replaced != null ==> replaced in b.order)
    ensures BooksOk(Entered(b, e, replaced))
    ensures var r := Evict(Entered(b, e, replaced), capacity);
      Inserted(b.order, r.order, e, replaced) && (r.usage <= capacity || r.order == []) &&
      forall x :: Held(r, x) == if x == e then 1 else Held(b, x)
  {
    hide BooksOk, Entered, Evict, Held;
    EnteredOk(b, e, replaced);
    var n := EvictKeeps(Entered(b, e, replaced), capacity);
    assert OldestGone(Entered(b, e, replaced).order, Evict(Entered(b, e, replaced), capacity).order);
    if replaced != null {
      var rest :| CutOut(b.order, replaced, rest) && Entered(b, e, replaced).order == rest + [e];
      var i :| 0 <= i < |b.order| && b.order[i] == replaced && rest == b.order[..i] + b.order[i + 1..];
    }
  }

  class LRUCache {
    const table: HandleTable
    /** Dummy head: `lru.prev` is the newest entry, `lru.next` the oldest. */
    const lru: LRUHandle
    const capacity: nat
    var usage: nat
    var refs: map<LRUHandle, nat>
    var deleted: seq<LRUHandle>
    ghost var order: seq<LRUHandle>
    ghost var live: seq<LRUHandle>

    ghost function TheBooks(): Books reads this {
      Books(order, live, refs, usage, deleted)
    }

    /** The table holds exactly the entries on the list. */
    ghost predicate Valid() reads this, lru, order, table, table.list {
      Ring(lru, order) && table.Valid() && BooksOk(TheBooks()) && table.handles == Elems(order)
    }

    constructor (capacity: nat)
      ensures Valid() && this.capacity == capacity && TheBooks() == Books([], [], map[], 0, [])
      ensures fresh(table) && fresh(table.list) && fresh(lru)
    {
      table := new HandleTable();
      lru := new LRUHandle([], 0, 0, []);
      this.capacity := capacity;
      usage, refs, deleted, order, live := 0, map[], [], [], [];
    }

    method UnrefEntry(e: LRUHandle)
      requires e in refs && refs[e] > 0 && (refs[e] == 1 ==> usage >= e.charge)
      modifies this`refs, this`usage, this`deleted, this`live
      ensures TheBooks() == Unref(old(TheBooks()), e)
    {
      refs := refs[e := refs[e] - 1];
      if refs[e] == 0 {
        usage := usage - e.charge;
        deleted := deleted + [e];
        refs := refs - {e};
        live := Without(live, e);
        assert refs == old(refs) - {e};
      }
    }

    method Lookup(key: Bytes, hash: nat) returns (e: LRUHandle?)
      requires Valid()
      modifies this`order, this`refs, order, lru
      ensures Valid()
      ensures e == null ==> TheBooks() == old(TheBooks()) && forall h :: h in order ==> !Same(h, key, hash)
      ensures e != null ==> e in old(order) && Same(e, key, hash) && TheBooks() == Touch(old(TheBooks()), e)
      ensures e != null ==> exists rest :: CutOut(old(order), e, rest) && order == rest + [e]
      ensures e != null ==> e in old(refs) && refs == old(refs)[e := old(refs[e]) + 1]
      ensures usage == old(usage) && live == old(live) && deleted == old(deleted)
      ensures forall x :: x in refs || x in old(refs) ==>
        Held(TheBooks(), x) == Held(old(TheBooks()), x) + if x == e then 1 else 0
    {
      e := table.Lookup(key, hash);
      OnlyOne(key, hash);
      if e != null {
        ghost var b := TheBooks();
        TouchEntry(e);
        TouchOk(b, e);
      }
    }

    method TouchEntry(e: LRUHandle)
      requires Valid() && e in order
      modifies this`order, this`refs, order, lru
      ensures Valid() && TheBooks() == Touch(old(TheBooks()), e)
    {
      hide BooksOk;
      TouchOk(TheBooks(), e);
      refs := refs[e := refs[e] + 1];
      MoveToNewest(e);
    }

    method MoveToNewest(e: LRUHandle)
      requires Ring(lru, order) && e in order
      modifies this`order, order, lru
      ensures Ring(lru, order) && order == Without(old(order), e) + [e]
    {
      assert NoRepeats(order);
      hide Ring, Without;
      ghost var i :| 0 <= i < |order| && order[i] == e;
      WithoutMembers(order, e);
      Unlink(e, lru, order, i);
      ghost var rest := Without(order, e);
      assert forall k :: 0 <= k < |rest| ==> rest[k] in rest && rest[k] in order;
      LinkNewest(e, lru, rest);
      order := rest + [e];
    }

    method Release(e: LRUHandle)
      requires Valid() && e in live && Held(TheBooks(), e) > 0
      modifies this`refs, this`usage, this`deleted, this`live
      ensures Valid() && TheBooks() == Unref(old(TheBooks()), e)
      ensures forall x :: x in refs || x in old(refs) ==>
        Held(TheBooks(), x) == Held(old(TheBooks()), x) - if x == e then 1 else 0
    {
      hide BooksOk, Ring, Unref, Elems;
      ghost var b := TheBooks();
      LiveIsCounted(b, e);
      UnrefOk(b, e);
      UnrefEntry(e);
      UnrefOk(b, e);
    }

    /** Takes an entry off the list and drops the cache's reference to it. */
    method DropEntry(e: LRUHandle)
      requires Ring(lru, order) && BooksOk(TheBooks()) && e in order
      modifies this`refs, this`usage, this`deleted, this`live, this`order, order, lru
      ensures Ring(lru, order) && BooksOk(TheBooks()) && TheBooks() == Drop(old(TheBooks()), e)
    {
      hide Ring, BooksOk, Without, Charges;
      DropOk(TheBooks(), e);
      ghost var i :| 0 <= i < |order| && order[i] == e;
      Unlink(e, lru, order, i);
      order := Without(order, e);
      UnrefEntry(e);
    }

    /** Drops an entry that the table no longer has. */
    method DropRemoved(e: LRUHandle)
      requires Ring(lru, order) && BooksOk(TheBooks()) && e in order && table.Valid() &&
        table.handles == Elems(order) - {e}
      modifies this`refs, this`usage, this`deleted, this`live, this`order, order, lru
      ensures Valid() && TheBooks() == Drop(old(TheBooks()), e)
    {
      hide Ring, BooksOk, Without;
      NoneTwice(TheBooks());
      WithoutElems(order, e);
      DropEntry(e);
    }

    method Erase(key: Bytes, hash: nat)
      requires Valid()
      modifies this, table, table.list, order, lru
      ensures Valid()
      ensures (forall h :: h in old(order) ==> !Same(h, key, hash)) ==> TheBooks() == old(TheBooks())
      ensures forall e :: e in old(order) && Same(e, key, hash) ==>
        TheBooks() == Drop(old(TheBooks()), e) && CutOut(old(order), e, order)
      ensures forall x :: x in refs || x in old(refs) ==> Held(TheBooks(), x) == Held(old(TheBooks()), x)
      ensures table.list == old(table.list)
    {
      hide BooksOk, Ring, Drop, CutOut;
      OnlyOne(key, hash);
      ghost var b := TheBooks();
      var e := table.Remove(key, hash);
      if e != null {
        DropRemoved(e);
        DropOk(b, e);
      }
    }

    lemma OnlyOne(key: Bytes, hash: nat)
      requires Valid()
      ensures forall g, h :: g in order && h in order && Same(g, key, hash) && Same(h, key, hash) ==> g == h
      ensures forall h :: h in order <==> h in table.handles
    {
      assert forall h :: h in order <==> h in Elems(order);
      forall g, h | g in order && h in order && Same(g, key, hash) && Same(h, key, hash) ensures g == h {
        table.OneOfAKind(g, h);
      }
    }

    /** Evicts the oldest entry. */
    method EvictOldest()
      requires Valid() && order != []
      modifies this, table, table.list, order, lru
      ensures Valid() && table.list == old(table.list) && order == old(order)[1..]
      ensures old(order[0] in refs && refs[order[0]] > 0) && TheBooks() == Drop(old(TheBooks()), old(order[0]))
    {
      hide BooksOk, Drop;
      var e := lru.next;
      OnlyOne(e.key, e.hash);
      DropFirst(TheBooks());
      RemoveEntry(e);
      DropRemoved(e);
    }

    /** Removing by the key and hash of a cached entry removes that entry. */
    method RemoveEntry(e: LRUHandle)
      requires table.Valid() && e in table.handles
      modifies table, table.list
      ensures table.Valid() && table.list == old(table.list) && table.handles == old(table.handles) - {e}
    {
      forall g | g in table.handles && Same(g, e.key, e.hash) ensures g == e {
        table.OneOfAKind(g, e);
      }
      var removed := table.Remove(e.key, e.hash);
    }

    /** An object made after the cache's entries is none of them. */
    lemma NewIsUnknown(e: LRUHandle)
      requires Valid() && e !in order && e !in live
      ensures e !in refs && BooksOk(TheBooks())
    {
      assert e in Elems(live) <==> e in live;
    }

    /** Insert: the new entry becomes the newest and is handed to the caller; an entry with its key
        is replaced; the oldest entries are evicted while over capacity. */
    method Insert(key: Bytes, hash: nat, value: Bytes, charge: nat) returns (e: LRUHandle, ghost replaced: LRUHandle?)
      requires Valid()
      modifies this, table, table.list, order, lru
      ensures Valid() && fresh(e) && e.key == key && e.hash == hash && e.value == value && e.charge == charge
      ensures replaced == null ==> forall h :: h in old(order) ==> !Same(h, key, hash)
      ensures replaced != null ==> replaced in old(order) && Same(replaced, key, hash)
      ensures BooksOk(Entered(old(TheBooks()), e, replaced))
      ensures TheBooks() == Evict(Entered(old(TheBooks()), e, replaced), capacity)
      ensures Inserted(old(order), order, e, replaced) && (usage <= capacity || order == [])
      ensures e in refs && e !in old(refs) && Held(TheBooks(), e) == 1
      ensures forall x :: x in refs || x in old(refs) ==> x == e || Held(TheBooks(), x) == Held(old(TheBooks()), x)
      ensures table.list == old(table.list) || fresh(table.list)
    {
      hide Ring, BooksOk, Entered, Evict, Held;
      e := new LRUHandle(key, hash, charge, value);
      ghost var b := TheBooks();
      NewIsUnknown(e);
      replaced := Enter(e);
      assert forall k :: 0 <= k < |order| ==> order[k] in order && (order[k] in old(order) || order[k] == e);
      EvictAll();
      InsertedOk(b, e, replaced, capacity);
      HeldIsCounted(TheBooks(), e);
    }

    /** Makes a new entry the newest, with one reference for the cache and one for the caller. */
    method LinkNew(e: LRUHandle)
      requires Ring(lru, order) && BooksOk(TheBooks()) && table.Valid() && e !in refs && e != lru && e !in order
      modifies this`order, this`live, this`refs, this`usage, order, lru, e
      ensures Ring(lru, order) && BooksOk(TheBooks()) && TheBooks() == Add(old(TheBooks()), e)
      ensures table.Valid() && table.handles == old(table.handles) && table.list == old(table.list)
      ensures Elems(order) == Elems(old(order)) + {e}
    {
      hide BooksOk, Ring;
      AddOk(TheBooks(), e);
      LinkNewest(e, lru, order);
      order, live, refs, usage := order + [e], live + [e], refs[e := 2], usage + e.charge;
    }

    method EnterInTable(e: LRUHandle) returns (replaced: LRUHandle?)
      requires Ring(lru, order) && table.Valid() && e !in table.handles && Elems(order) == table.handles + {e}
      modifies table, table.list
      ensures Ring(lru, order) && table.Valid() && (table.list == old(table.list) || fresh(table.list))
      ensures replaced == null ==> table.handles == Elems(order)
      ensures replaced != null ==> replaced in Elems(order) && table.handles == Elems(order) - {replaced}
      ensures replaced == null ==> forall h :: h in old(table.handles) ==> !Same(h, e.key, e.hash)
      ensures replaced != null ==> replaced in old(table.handles) && Same(replaced, e.key, e.hash)
    {
      hide Ring, Elems, Just, Placed, Same;
      ghost var handles := table.handles;
      replaced := table.Insert(e);
      HandlesAfter(handles, table.handles, Elems(order), e, replaced);
    }

    /** Enters a linked entry in the table and drops the one it replaces. */
    method Register(e: LRUHandle) returns (replaced: LRUHandle?)
      requires Ring(lru, order) && BooksOk(TheBooks()) && table.Valid()
      requires e !in table.handles && Elems(order) == table.handles + {e}
      modifies this`order, this`live, this`refs, this`usage, this`deleted, table, table.list, order, lru
      ensures Valid() && (table.list == old(table.list) || fresh(table.list))
      ensures replaced == null ==> forall h :: h in old(table.handles) ==> !Same(h, e.key, e.hash)
      ensures replaced != null ==> replaced in old(table.handles) && Same(replaced, e.key, e.hash)
      ensures replaced == null ==> TheBooks() == old(TheBooks())
      ensures replaced != null ==>
        old(replaced in refs && refs[replaced] > 0) && TheBooks() == Drop(old(TheBooks()), replaced)
      ensures replaced != null ==> order == Without(old(order), replaced)
    {
      replaced := EnterInTable(e);
      if replaced != null {
        DropReplaced(replaced);
      }
    }

    method DropReplaced(e: LRUHandle)
      requires Ring(lru, order) && BooksOk(TheBooks()) && table.Valid()
      requires e in Elems(order) && table.handles == Elems(order) - {e}
      modifies this`refs, this`usage, this`deleted, this`live, this`order, order, lru
      ensures Valid() && old(e in refs && refs[e] > 0) && TheBooks() == Drop(old(TheBooks()), e)
      ensures table.list == old(table.list) && table.handles == old(table.handles) && order == Without(old(order), e)
    {
      hide Ring, Without, BooksOk;
      DropOk(TheBooks(), e);
      DropRemoved(e);
    }

    /** Links in a new entry and replaces the one with its key. */
    method Enter(e: LRUHandle) returns (replaced: LRUHandle?)
      requires Valid() && e !in refs && e != lru && e !in order
      modifies this, table, table.list, order, lru, e
      ensures Valid() && (table.list == old(table.list) || fresh(table.list))
      ensures forall h :: h in order ==> h in old(order) || h == e
      ensures replaced == null ==> forall h :: h in old(order) ==> !Same(h, e.key, e.hash)
      ensures replaced != null ==> replaced in old(order) && Same(replaced, e.key, e.hash)
      ensures TheBooks() == Entered(old(TheBooks()), e, replaced)
    {
      ghost var before := order;
      MembersAreElems(before);
      LinkNew(e);
      replaced := Register(e);
      if replaced != null {
        WithoutMembers(before + [e], replaced);
      }
    }

    method EvictAll()
      requires Valid()
      modifies this, table, table.list, order, lru
      ensures Valid() && TheBooks() == Evict(old(TheBooks()), capacity) && table.list == old(table.list)
    {
      hide BooksOk, Elems, Drop, Charges;
      ghost var b, n := TheBooks(), 0;
      while usage > capacity && lru.next != lru
        invariant Valid() && Evict(TheBooks(), capacity) == Evict(b, capacity)
        invariant table.list == old(table.list) && n <= |old(order)| && order == old(order)[n..]
        decreases |order|
      {
        assert forall k :: 0 <= k < |order| ==> order[k] == old(order)[n + k];
        EvictOldest();
        n := n + 1;
      }
    }
  }
}
