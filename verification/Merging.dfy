/** MergingIterator (merger.cc): many sorted children shown as one cursor over their merge.

    Equal keys of different children are ordered by child.  Moving on in one direction the iterator
    yields every copy; a change of direction repositions the other children strictly beyond the
    current key, so it skips the remaining copies.  `MergeStep` says exactly that, the class is
    proved to follow it, and `CursorIffNoSharedKey` says when that is a plain cursor.
  */
module Merging {
  import opened Keys
  import opened Cursors

  /** An entry of the merge and the child it comes from. */
  datatype Pair = Pair(entry: Entry, child: nat)

  ghost predicate Before(a: Pair, b: Pair) {
    Less(a.entry.key, b.entry.key) || (a.entry.key == b.entry.key && a.child < b.child)
  }

  lemma LessTotal(a: InternalKey, b: InternalKey)
    ensures Less(a, b) || a == b || Less(b, a)
    ensures !(Less(a, b) && Less(b, a)) && !Less(a, a)
  {
  }

  ghost predicate Ascending(merged: seq<Pair>) {
    forall i, j :: 0 <= i < j < |merged| ==> Before(merged[i], merged[j])
  }

  ghost predicate InLists(lists: seq<seq<Entry>>, x: Pair) {
    x.child < |lists| && x.entry in lists[x.child]
  }

  /** `merged` lists every entry of every child once, in order. */
  ghost predicate IsMerge(lists: seq<seq<Entry>>, merged: seq<Pair>) {
    Ascending(merged) && forall x :: x in merged <==> InLists(lists, x)
  }

  ghost predicate AllSorted(lists: seq<seq<Entry>>) {
    forall d :: 0 <= d < |lists| ==> Sorted(lists[d])
  }

  // ---------- the merge exists and is unique ----------

  ghost function Insert(merged: seq<Pair>, x: Pair): (r: seq<Pair>)
    requires Ascending(merged) && x !in merged
    requires forall y :: y in merged ==> y.entry.key != x.entry.key || y.child != x.child
    ensures Ascending(r) && forall y :: y in r <==> y == x || y in merged
  {
    if merged == [] || Before(x, merged[0]) then [x] + merged
    else
      assert merged == [merged[0]] + merged[1..];
      var rest := Insert(merged[1..], x);
      LessTotal(x.entry.key, merged[0].entry.key);
      assert merged[0] in merged;
      assert forall j :: 0 <= j < |rest| ==> rest[j] in rest;
      assert forall j :: 1 <= j < |merged| ==> merged[j] in merged[1..];
      [merged[0]] + rest
  }

  /** Adds the first `n` entries of child `d` to the merge of the children before it. */
  ghost function InsertChild(lists: seq<seq<Entry>>, d: nat, n: nat): (r: seq<Pair>)
    requires AllSorted(lists) && d < |lists| && n <= |lists[d]|
    ensures Ascending(r)
    ensures forall x :: x in r <==> (x.child < d && InLists(lists, x)) || (x.child == d && x.entry in lists[d][..n])
    decreases d, n
  {
    if n > 0 then
      var e := lists[d][n - 1];
      assert lists[d][..n] == lists[d][..n - 1] + [e];
      var r := InsertChild(lists, d, n - 1);
      assert forall y :: y in r && y.child == d ==> Less(y.entry.key, e.key);
      Insert(r, Pair(e, d))
    else if d > 0 then
      assert lists[d - 1][..|lists[d - 1]|] == lists[d - 1];
      InsertChild(lists, d - 1, |lists[d - 1]|)
    else []
  }

  ghost function Merged(lists: seq<seq<Entry>>): (r: seq<Pair>)
    requires AllSorted(lists)
    ensures IsMerge(lists, r)
  {
    if lists == [] then []
    else
      var d := |lists| - 1;
      assert lists[d][..|lists[d]|] == lists[d];
      InsertChild(lists, d, |lists[d]|)
  }

  lemma {:induction false} MergeIsUnique(a: seq<Pair>, b: seq<Pair>)
    requires Ascending(a) && Ascending(b) && forall x :: x in a <==> x in b
    ensures a == b
  {
    assert b != [] ==> b[0] in b;
    if a != [] {
      assert a[0] in b && b[0] in a;
      var i :| 0 <= i < |b| && b[i] == a[0];
      var j :| 0 <= j < |a| && a[j] == b[0];
      assert a[0] == b[0];
      SameTail(a, b);
      SameTail(b, a);
      MergeIsUnique(a[1..], b[1..]);
      assert a == [a[0]] + a[1..] && b == [b[0]] + b[1..];
    }
  }

  lemma SameTail(a: seq<Pair>, b: seq<Pair>)
    requires a != [] && b != [] && Ascending(a) && a[0] == b[0] && forall x :: x in a ==> x in b
    ensures Ascending(a[1..]) && forall x :: x in a[1..] ==> x in b[1..]
  {
    forall x | x in a[1..] ensures x in b[1..] {
      var i :| 0 <= i < |a[1..]| && a[1..][i] == x;
      assert Before(a[0], a[i + 1]);
      LessTotal(x.entry.key, x.entry.key);
      assert x != b[0];
      assert b == [b[0]] + b[1..] && x in b;
    }
  }

  // ---------- cuts: where the children stand ----------

  /** Strictly left of merge position `i`. */
  ghost predicate LeftOf(merged: seq<Pair>, i: nat, x: Pair) {
    i < |merged| ==> Before(x, merged[i])
  }

  /** The first `cuts[d]` entries of each child are those left of merge position `i`. */
  ghost predicate CutAt(lists: seq<seq<Entry>>, merged: seq<Pair>, cuts: seq<nat>, i: nat) {
    |cuts| == |lists| &&
    forall d, j :: 0 <= d < |lists| && 0 <= j < |lists[d]| ==>
      (j < cuts[d] <==> LeftOf(merged, i, Pair(lists[d][j], d)))
  }

  ghost predicate CutsInRange(lists: seq<seq<Entry>>, cuts: seq<nat>) {
    |cuts| == |lists| && forall d :: 0 <= d < |lists| ==> cuts[d] <= |lists[d]|
  }

  lemma PairAt(lists: seq<seq<Entry>>, merged: seq<Pair>, i: nat) returns (j: nat)
    requires IsMerge(lists, merged) && i < |merged|
    ensures merged[i].child < |lists| && j < |lists[merged[i].child]| && lists[merged[i].child][j] == merged[i].entry
  {
    assert merged[i] in merged && InLists(lists, merged[i]);
    j :| 0 <= j < |lists[merged[i].child]| && lists[merged[i].child][j] == merged[i].entry;
  }

  lemma PairIndex(lists: seq<seq<Entry>>, merged: seq<Pair>, d: nat, j: nat) returns (i: nat)
    requires IsMerge(lists, merged) && d < |lists| && j < |lists[d]|
    ensures i < |merged| && merged[i] == Pair(lists[d][j], d)
  {
    assert InLists(lists, Pair(lists[d][j], d));
    i :| 0 <= i < |merged| && merged[i] == Pair(lists[d][j], d);
  }

  /** The element at the cut is the first entry right of it in its child. */
  lemma FirstRightOfCut(lists: seq<seq<Entry>>, merged: seq<Pair>, cuts: seq<nat>, i: nat)
    requires AllSorted(lists) && IsMerge(lists, merged) && CutAt(lists, merged, cuts, i) && i < |merged|
    ensures var c := merged[i].child; c < |lists| && cuts[c] < |lists[c]| && lists[c][cuts[c]] == merged[i].entry
  {
    var c := merged[i].child;
    var j := PairAt(lists, merged, i);
    LessTotal(merged[i].entry.key, merged[i].entry.key);
    assert !LeftOf(merged, i, Pair(lists[c][j], c));
    assert cuts[c] < j ==> LeftOf(merged, i, Pair(lists[c][cuts[c]], c));
  }

  /** The element before the cut is the last entry left of it in its child. */
  lemma LastLeftOfCut(lists: seq<seq<Entry>>, merged: seq<Pair>, cuts: seq<nat>, i: nat)
    requires AllSorted(lists) && IsMerge(lists, merged) && CutsInRange(lists, cuts)
    requires CutAt(lists, merged, cuts, i) && 0 < i <= |merged|
    ensures var c := merged[i - 1].child; c < |lists| && cuts[c] > 0 && lists[c][cuts[c] - 1] == merged[i - 1].entry
  {
    var c := merged[i - 1].child;
    var j := PairAt(lists, merged, i - 1);
    assert LeftOf(merged, i, Pair(lists[c][j], c));
    if j < cuts[c] - 1 {
      var k := cuts[c] - 1;
      assert LeftOf(merged, i, Pair(lists[c][k], c));
      var m := PairIndex(lists, merged, c, k);
      assert Before(merged[i - 1], merged[m]);
      NotBetween(merged, i - 1, m);
    }
  }

  lemma NotBetween(merged: seq<Pair>, i: nat, m: nat)
    requires Ascending(merged) && i < |merged| && m < |merged| && Before(merged[i], merged[m])
    ensures m > i && (i + 1 < |merged| ==> !Before(merged[m], merged[i + 1]))
  {
    LessTotal(merged[i].entry.key, merged[m].entry.key);
    if i + 1 < |merged| {
      LessTotal(merged[m].entry.key, merged[i + 1].entry.key);
    }
  }

  /** Everything right of the cut is at or after the element at it. */
  lemma RightOfCut(lists: seq<seq<Entry>>, merged: seq<Pair>, cuts: seq<nat>, i: nat, d: nat)
    requires CutAt(lists, merged, cuts, i) && d < |lists| && cuts[d] < |lists[d]|
    ensures i < |merged| && !Before(Pair(lists[d][cuts[d]], d), merged[i])
  {
    assert !LeftOf(merged, i, Pair(lists[d][cuts[d]], d));
  }

  lemma LeftOfCut(lists: seq<seq<Entry>>, merged: seq<Pair>, cuts: seq<nat>, i: nat, d: nat)
    requires IsMerge(lists, merged) && CutsInRange(lists, cuts) && CutAt(lists, merged, cuts, i) && i <= |merged|
    requires d < |lists| && cuts[d] > 0
    ensures i > 0 && !Before(merged[i - 1], Pair(lists[d][cuts[d] - 1], d))
  {
    var x := Pair(lists[d][cuts[d] - 1], d);
    assert LeftOf(merged, i, x);
    var m := PairIndex(lists, merged, d, cuts[d] - 1);
    if m >= i {
      LessTotal(merged[i].entry.key, merged[m].entry.key);
      assert m > i ==> Before(merged[i], merged[m]);
    }
    LessTotal(merged[m].entry.key, merged[i - 1].entry.key);
    assert m < i - 1 ==> Before(merged[m], merged[i - 1]);
  }

  /** Moving the child at the cut one entry on moves the cut by one. */
  lemma CutForward(lists: seq<seq<Entry>>, merged: seq<Pair>, cuts: seq<nat>, i: nat)
    requires AllSorted(lists) && IsMerge(lists, merged) && CutAt(lists, merged, cuts, i) && i < |merged|
    ensures var c := merged[i].child; c < |lists| && CutAt(lists, merged, cuts[c := cuts[c] + 1], i + 1)
  {
    FirstRightOfCut(lists, merged, cuts, i);
    var c := merged[i].child;
    var cuts' := cuts[c := cuts[c] + 1];
    forall d, j | 0 <= d < |lists| && 0 <= j < |lists[d]|
      ensures j < cuts'[d] <==> LeftOf(merged, i + 1, Pair(lists[d][j], d))
    {
      var m := PairIndex(lists, merged, d, j);
      IndexLeftOf(merged, i, m);
      IndexLeftOf(merged, i + 1, m);
      assert j < cuts[d] <==> LeftOf(merged, i, Pair(lists[d][j], d));
      if m == i {
        SameEntry(lists[c], j, cuts[c]);
      }
    }
  }

  lemma SameEntry(list: seq<Entry>, i: nat, j: nat)
    requires Sorted(list) && i < |list| && j < |list| && list[i] == list[j]
    ensures i == j
  {
    LessTotal(list[i].key, list[j].key);
  }

  lemma IndexLeftOf(merged: seq<Pair>, i: nat, m: nat)
    requires Ascending(merged) && m < |merged| && i <= |merged|
    ensures LeftOf(merged, i, merged[m]) <==> m < i
  {
    if i < |merged| {
      LessTotal(merged[i].entry.key, merged[m].entry.key);
      assert i < m ==> Before(merged[i], merged[m]);
    }
  }

  lemma CutBackward(lists: seq<seq<Entry>>, merged: seq<Pair>, cuts: seq<nat>, i: nat)
    requires AllSorted(lists) && IsMerge(lists, merged) && CutsInRange(lists, cuts)
    requires CutAt(lists, merged, cuts, i + 1) && i < |merged|
    ensures var c := merged[i].child; c < |lists| && cuts[c] > 0 && CutAt(lists, merged, cuts[c := cuts[c] - 1], i)
  {
    LastLeftOfCut(lists, merged, cuts, i + 1);
    var c := merged[i].child;
    var cuts' := cuts[c := cuts[c] - 1];
    forall d, j | 0 <= d < |lists| && 0 <= j < |lists[d]|
      ensures j < cuts'[d] <==> LeftOf(merged, i, Pair(lists[d][j], d))
    {
      var m := PairIndex(lists, merged, d, j);
      IndexLeftOf(merged, i, m);
      IndexLeftOf(merged, i + 1, m);
      assert j < cuts[d] <==> LeftOf(merged, i + 1, Pair(lists[d][j], d));
      if m == i {
        SameEntry(lists[c], j, cuts[c] - 1);
      }
    }
  }

  // ---------- cuts by key ----------

  /** The merge position of the first key at or after `key`. */
  ghost function Lower(merged: seq<Pair>, key: InternalKey): (i: nat)
    ensures i <= |merged|
    ensures forall j :: 0 <= j < i ==> Less(merged[j].entry.key, key)
    ensures i < |merged| ==> !Less(merged[i].entry.key, key)
  {
    if merged == [] || !Less(merged[0].entry.key, key) then 0 else 1 + Lower(merged[1..], key)
  }

  /** The merge position of the first key after `key`. */
  ghost function Upper(merged: seq<Pair>, key: InternalKey): (i: nat)
    ensures i <= |merged|
    ensures forall j :: 0 <= j < i ==> !Less(key, merged[j].entry.key)
    ensures i < |merged| ==> Less(key, merged[i].entry.key)
  {
    if merged == [] || Less(key, merged[0].entry.key) then 0 else 1 + Upper(merged[1..], key)
  }

  ghost predicate LowerCut(list: seq<Entry>, key: InternalKey, cut: nat) {
    cut <= |list| && forall j :: 0 <= j < |list| ==> (j < cut <==> Less(list[j].key, key))
  }

  ghost predicate UpperCut(list: seq<Entry>, key: InternalKey, cut: nat) {
    cut <= |list| && forall j :: 0 <= j < |list| ==> (j < cut <==> !Less(key, list[j].key))
  }

  lemma SeekIsLowerCut(list: seq<Entry>, key: InternalKey)
    requires Sorted(list)
    ensures LowerCut(list, key, SeekIndex(list, key))
  {
    var i := SeekIndex(list, key);
    forall j | i <= j < |list| ensures !Less(list[j].key, key) {
      assert i < j ==> Less(list[i].key, list[j].key);
    }
  }

  lemma LowerCuts(lists: seq<seq<Entry>>, merged: seq<Pair>, cuts: seq<nat>, key: InternalKey)
    requires IsMerge(lists, merged) && |cuts| == |lists|
    requires forall d :: 0 <= d < |lists| ==> LowerCut(lists[d], key, cuts[d])
    ensures CutAt(lists, merged, cuts, Lower(merged, key))
  {
    var i := Lower(merged, key);
    forall d, j | 0 <= d < |lists| && 0 <= j < |lists[d]|
      ensures j < cuts[d] <==> LeftOf(merged, i, Pair(lists[d][j], d))
    {
      var m := PairIndex(lists, merged, d, j);
      IndexLeftOf(merged, i, m);
      assert i < m ==> Before(merged[i], merged[m]);
    }
  }

  lemma UpperCuts(lists: seq<seq<Entry>>, merged: seq<Pair>, cuts: seq<nat>, key: InternalKey)
    requires IsMerge(lists, merged) && |cuts| == |lists|
    requires forall d :: 0 <= d < |lists| ==> UpperCut(lists[d], key, cuts[d])
    ensures CutAt(lists, merged, cuts, Upper(merged, key))
  {
    var i := Upper(merged, key);
    forall d, j | 0 <= d < |lists| && 0 <= j < |lists[d]|
      ensures j < cuts[d] <==> LeftOf(merged, i, Pair(lists[d][j], d))
    {
      var m := PairIndex(lists, merged, d, j);
      IndexLeftOf(merged, i, m);
      assert i < m ==> Before(merged[i], merged[m]);
    }
  }

  // ---------- the exact behaviour ----------

  datatype Direction = Forward | Reverse

  /** One call: a plain cursor step, except that a change of direction jumps past every copy of
      the current key. */
  ghost function MergeStep(merged: seq<Pair>, at: Option<nat>, direction: Direction,
                           move: Move<InternalKey>): Option<nat>
    requires at.Some? ==> at.value < |merged|
  {
    var n := |merged|;
    match move
    case SeekToFirst => Clip(0, n)
    case SeekToLast => Clip(n - 1, n)
    case Seek(target) => Clip(Lower(merged, target), n)
    case Next =>
      if at.None? then None
      else if direction.Forward? then Clip(at.value + 1, n)
      else Clip(Upper(merged, merged[at.value].entry.key), n)
    case Prev =>
      if at.None? then None
      else if direction.Reverse? then Clip(at.value - 1, n)
      else Clip(Lower(merged, merged[at.value].entry.key) - 1, n)
  }

  ghost function DirectionAfter(at: Option<nat>, direction: Direction, move: Move<InternalKey>): Direction {
    match move
    case SeekToFirst => Forward
    case SeekToLast => Reverse
    case Seek(_) => Forward
    case Next => if at.None? then direction else Forward
    case Prev => if at.None? then direction else Reverse
  }

  ghost function LowerSeek(merged: seq<Pair>): InternalKey -> int {
    key => Lower(merged, key)
  }

  ghost predicate SharedKey(merged: seq<Pair>) {
    exists i, j :: 0 <= i < j < |merged| && merged[i].entry.key == merged[j].entry.key
  }

  /** Every call from every position and direction is a plain cursor step exactly when no key occurs
      in two children. */
  lemma CursorIffNoSharedKey(merged: seq<Pair>)
    requires Ascending(merged)
    ensures !SharedKey(merged) <==>
      (forall at: Option<nat>, direction, move {:trigger MergeStep(merged, at, direction, move)} ::
        (at.Some? ==> at.value < |merged|) ==>
        MergeStep(merged, at, direction, move) == Step(|merged|, at, move, LowerSeek(merged)))
  {
    if !SharedKey(merged) {
      forall at: Option<nat>, direction, move | at.Some? ==> at.value < |merged|
        ensures MergeStep(merged, at, direction, move) == Step(|merged|, at, move, LowerSeek(merged))
      {
        if at.Some? {
          AloneBounds(merged, at.value);
        }
      }
    } else {
      var i, j :| 0 <= i < j < |merged| && merged[i].entry.key == merged[j].entry.key;
      SwitchSkipsCopies(merged, i, j);
    }
  }

  lemma AloneBounds(merged: seq<Pair>, i: nat)
    requires Ascending(merged) && !SharedKey(merged) && i < |merged|
    ensures Lower(merged, merged[i].entry.key) == i && Upper(merged, merged[i].entry.key) == i + 1
  {
    var key := merged[i].entry.key;
    var lo, hi := Lower(merged, key), Upper(merged, key);
    LessTotal(key, key);
    assert lo < i ==> Before(merged[lo], merged[i]);
    assert hi < i ==> Before(merged[hi], merged[i]);
    assert i + 1 < hi ==> Before(merged[i], merged[i + 1]);
    if hi < i { LessTotal(merged[hi].entry.key, key); }
  }

  /** Turning round at a copy that is not the last one loses the copies after it. */
  lemma SwitchSkipsCopies(merged: seq<Pair>, i: nat, j: nat)
    requires Ascending(merged) && i < j < |merged| && merged[i].entry.key == merged[j].entry.key
    ensures MergeStep(merged, Some(i), Reverse, Next) != Step(|merged|, Some(i), Next, LowerSeek(merged))
  {
    var key := merged[i].entry.key;
    var hi := Upper(merged, key);
    LessTotal(key, key);
    if hi <= j {
      assert hi < j ==> Before(merged[hi], merged[j]);
      LessTotal(merged[hi].entry.key, key);
    }
  }

  // ---------- the iterator ----------

  /** Entries left of the position a forward-moving child stands at. */
  ghost function RightCut(pos: Option<nat>, n: nat): nat {
    if pos.Some? then pos.value else n
  }

  /** Entries up to and including the position a backward-moving child stands at. */
  ghost function LeftCut(pos: Option<nat>): nat {
    if pos.Some? then pos.value + 1 else 0
  }

  class MergingIterator {
    const children: seq<Cursor>
    var current: Option<nat>
    var direction: Direction
    ghost const lists: seq<seq<Entry>>
    ghost const merged: seq<Pair>
    /** The merge position shown while the iterator is valid, and where each child then stands. */
    ghost var at: nat
    ghost var cuts: seq<nat>

    ghost predicate ChildrenOk() reads children {
      (forall d :: 0 <= d < |children| ==> children[d].Valid()) &&
      forall d, e :: 0 <= d < e < |children| ==> children[d] != children[e]
    }

    ghost predicate ListsOk() {
      |lists| == |children| && (forall d :: 0 <= d < |lists| ==> lists[d] == children[d].entries) &&
      AllSorted(lists) && IsMerge(lists, merged)
    }

    /** Child `d` stands at `cut` when moving in the given direction. */
    ghost predicate StandsAt(d: nat, towards: Direction, cut: nat)
      requires d < |children|
      reads children
    {
      cut == match towards
             case Forward => RightCut(children[d].pos, |children[d].entries|)
             case Reverse => LeftCut(children[d].pos)
    }

    ghost predicate Standing(towards: Direction, cuts: seq<nat>) reads children {
      |cuts| == |children| && forall d :: 0 <= d < |children| ==> StandsAt(d, towards, cuts[d])
    }

    ghost predicate Inv() reads this, children {
      ChildrenOk() && ListsOk() &&
      (current.Some? ==>
        at < |merged| && current.value < |children| && current.value == merged[at].child &&
        StandingAt(direction, if direction.Forward? then at else at + 1))
    }

    ghost predicate StandingAt(towards: Direction, i: nat) reads this`cuts, children {
      Standing(towards, cuts) && CutAt(lists, merged, cuts, i)
    }

    ghost function Position(): (p: Option<nat>) reads this {
      if current.Some? then Some(at) else None
    }

    constructor (children: seq<Cursor>)
      requires forall d :: 0 <= d < |children| ==> children[d].Valid()
      requires forall d, e :: 0 <= d < e < |children| ==> children[d] != children[e]
      ensures Inv() && this.children == children && Position() == None
      ensures merged == Merged(lists)
    {
      this.children := children;
      current, direction, at, cuts := None, Forward, 0, [];
      ghost var entries := seq(|children|, d requires 0 <= d < |children| => children[d].entries);
      lists, merged := entries, Merged(entries);
    }

    /** The entry a child shows. */
    ghost function Head(d: nat): Pair
      requires d < |children| && children[d].Valid() && children[d].pos.Some?
      reads children
    {
      Pair(children[d].entries[children[d].pos.value], d)
    }

    method FindSmallest(ghost i: nat)
      requires ChildrenOk() && ListsOk() && i <= |merged|
      requires StandingAt(Forward, i)
      modifies this`current
      ensures current == if i < |merged| then Some(merged[i].child) else None
      ensures current.Some? ==> current.value < |children|
    {
      var smallest: Option<nat> := None;
      for k := 0 to |children|
        invariant smallest.None? ==> forall d :: 0 <= d < k ==> children[d].pos.None?
        invariant smallest.Some? ==> smallest.value < k && children[smallest.value].pos.Some?
        invariant smallest.Some? ==>
          forall d :: 0 <= d < k && children[d].pos.Some? ==> !Before(Head(d), Head(smallest.value))
      {
        if children[k].pos.Some? {
          if smallest.None? {
            smallest := Some(k);
          } else if Less(children[k].Key(), children[smallest.value].Key()) {
            smallest := Some(k);
          }
        }
      }
      if i < |merged| {
        FirstRightOfCut(lists, merged, cuts, i);
        assert StandsAt(merged[i].child, Forward, cuts[merged[i].child]);
        assert Head(merged[i].child) == merged[i];
      }
      if smallest.Some? {
        assert StandsAt(smallest.value, Forward, cuts[smallest.value]);
        RightOfCut(lists, merged, cuts, i, smallest.value);
        LessTotal(merged[i].entry.key, Head(smallest.value).entry.key);
      }
      current := smallest;
    }

    method FindLargest(ghost i: nat)
      requires ChildrenOk() && ListsOk() && i <= |merged|
      requires StandingAt(Reverse, i)
      modifies this`current
      ensures current == if i > 0 then Some(merged[i - 1].child) else None
      ensures current.Some? ==> current.value < |children|
    {
      var largest: Option<nat> := None;
      for k := |children| downto 0
        invariant largest.None? ==> forall d :: k <= d < |children| ==> children[d].pos.None?
        invariant largest.Some? ==> k <= largest.value < |children| && children[largest.value].pos.Some?
        invariant largest.Some? ==>
          forall d :: k <= d < |children| && children[d].pos.Some? ==> !Before(Head(largest.value), Head(d))
      {
        if children[k].pos.Some? {
          if largest.None? {
            largest := Some(k);
          } else if Less(children[largest.value].Key(), children[k].Key()) {
            largest := Some(k);
          }
        }
      }
      LeftCutsInRange();
      if i > 0 {
        LastLeftOfCut(lists, merged, cuts, i);
        assert StandsAt(merged[i - 1].child, Reverse, cuts[merged[i - 1].child]);
        assert Head(merged[i - 1].child) == merged[i - 1];
      }
      if largest.Some? {
        assert StandsAt(largest.value, Reverse, cuts[largest.value]);
        LeftOfCut(lists, merged, cuts, i, largest.value);
        LessTotal(merged[i - 1].entry.key, Head(largest.value).entry.key);
      }
      current := largest;
    }

    lemma LeftCutsInRange()
      requires ChildrenOk() && ListsOk() && Standing(Reverse, cuts)
      ensures CutsInRange(lists, cuts)
    {
      forall d | 0 <= d < |lists| ensures cuts[d] <= |lists[d]| {
        assert StandsAt(d, Reverse, cuts[d]) && children[d].Valid();
      }
    }

    method SeekToFirst()
      requires Inv()
      modifies this, children
      ensures Inv() && direction == Forward && Position() == Clip(0, |merged|)
    {
      for k := 0 to |children|
        invariant ChildrenOk()
        invariant forall d :: 0 <= d < k ==> StandsAt(d, Forward, 0)
      {
        assert forall d :: 0 <= d < k ==> children[d] != children[k];
        children[k].SeekToFirst();
        assert StandsAt(k, Forward, 0);
      }
      cuts := seq(|children|, d => 0);
      CutAtStart(lists, merged, cuts);
      FindSmallest(0);
      direction, at := Forward, 0;
    }

    method SeekToLast()
      requires Inv()
      modifies this, children
      ensures Inv() && direction == Reverse && Position() == Clip(|merged| - 1, |merged|)
    {
      hide StandingAt, ChildrenOk, ListsOk;
      ChildrenToLast();
      FindLargest(|merged|);
      direction := Reverse;
      at := if |merged| > 0 then |merged| - 1 else 0;
    }

    ghost method StandAtLast()
      requires ListsOk() && forall d :: 0 <= d < |children| ==> StandsAt(d, Reverse, |children[d].entries|)
      modifies this`cuts
      ensures StandingAt(Reverse, |merged|)
    {
      cuts := LeftCuts();
      CutAtEnd(lists, merged, cuts);
    }

    method ChildrenToLast()
      requires ChildrenOk() && ListsOk()
      modifies this`cuts, children
      ensures ChildrenOk() && StandingAt(Reverse, |merged|)
    {
      hide AllSorted, IsMerge, CutAt, Sorted;
      for k := 0 to |children|
        invariant ChildrenOk()
        invariant forall d :: 0 <= d < k ==> StandsAt(d, Reverse, |children[d].entries|)
      {
        children[k].SeekToLast();
      }
      StandAtLast();
    }

    method Seek(target: InternalKey)
      requires Inv()
      modifies this, children
      ensures Inv() && direction == Forward && Position() == Clip(Lower(merged, target), |merged|)
    {
      hide IsMerge, AllSorted, Sorted, Ascending;
      for k := 0 to |children|
        invariant ChildrenOk()
        invariant forall d :: 0 <= d < k ==> StandsAt(d, Forward, SeekIndex(children[d].entries, target))
      {
        children[k].Seek(target);
      }
      cuts := SeekCuts(lists, target);
      LowerCuts(lists, merged, cuts, target);
      FindSmallest(Lower(merged, target));
      direction, at := Forward, Lower(merged, target);
    }

    /** Where the children stand when moving in one direction. */
    ghost function RightCuts(): (r: seq<nat>)
      reads children
      ensures Standing(Forward, r)
      ensures forall d :: 0 <= d < |children| ==> r[d] == RightCut(children[d].pos, |children[d].entries|)
    {
      seq(|children|, d requires 0 <= d < |children| reads children =>
        RightCut(children[d].pos, |children[d].entries|))
    }

    ghost function LeftCuts(): (r: seq<nat>)
      reads children
      ensures Standing(Reverse, r)
      ensures forall d :: 0 <= d < |children| ==> r[d] == LeftCut(children[d].pos)
    {
      seq(|children|, d requires 0 <= d < |children| reads children => LeftCut(children[d].pos))
    }

    /** Puts every child but the current one just past `key`. */
    method TurnForward(c: nat, key: InternalKey)
      requires ChildrenOk() && c < |children|
      modifies children
      ensures ChildrenOk() && children[c].pos == old(children[c].pos)
      ensures forall d :: 0 <= d < |children| && d != c ==>
        UpperCut(children[d].entries, key, RightCut(children[d].pos, |children[d].entries|))
    {
      for k := 0 to |children|
        invariant ChildrenOk() && children[c].pos == old(children[c].pos)
        invariant forall d :: 0 <= d < k && d != c ==>
          UpperCut(children[d].entries, key, RightCut(children[d].pos, |children[d].entries|))
      {
        if k != c {
          TurnChildForward(children[k], key);
        }
      }
    }

    method TurnBackward(c: nat, key: InternalKey)
      requires ChildrenOk() && c < |children|
      modifies children
      ensures ChildrenOk() && children[c].pos == old(children[c].pos)
      ensures forall d :: 0 <= d < |children| && d != c ==> LowerCut(children[d].entries, key, LeftCut(children[d].pos))
    {
      for k := 0 to |children|
        invariant ChildrenOk() && children[c].pos == old(children[c].pos)
        invariant forall d :: 0 <= d < k && d != c ==> LowerCut(children[d].entries, key, LeftCut(children[d].pos))
      {
        if k != c {
          TurnChildBackward(children[k], key);
        }
      }
    }

    /** Facts about the child that shows the current entry. */
    lemma CurrentChild()
      requires Inv() && current.Some?
      ensures children[current.value].pos.Some? && Head(current.value) == merged[at]
      ensures cuts[current.value] == children[current.value].pos.value + if direction.Forward? then 0 else 1
    {
      assert StandsAt(current.value, direction, cuts[current.value]);
      if direction.Forward? {
        FirstRightOfCut(lists, merged, cuts, at);
      } else {
        LeftCutsInRange();
        LastLeftOfCut(lists, merged, cuts, at + 1);
      }
    }

    method Current() returns (e: Option<Entry>)
      requires Inv()
      ensures e == if Position().Some? then Some(merged[at].entry) else None
    {
      if current.None? { return None; }
      CurrentChild();
      e := Some(Entry(children[current.value].Key(), children[current.value].Value()));
    }

    method AdvanceForward()
      requires Inv() && current.Some? && direction.Forward?
      modifies this`cuts, children
      ensures ChildrenOk() && StandingAt(Forward, at + 1)
    {
      hide IsMerge, CutAt, AllSorted, Sorted;
      CurrentChild();
      CutForward(lists, merged, cuts, at);
      var c := current.value;
      children[c].Next();
      cuts := cuts[c := cuts[c] + 1];
      assert forall d :: 0 <= d < |children| ==> old(StandsAt(d, Forward, cuts[d]));
    }

    method AdvanceTurned()
      requires Inv() && current.Some? && direction.Reverse?
      modifies this`cuts, children
      ensures ChildrenOk() && StandingAt(Forward, Upper(merged, merged[at].entry.key))
    {
      hide IsMerge, CutAt, AllSorted, Sorted, RightCuts;
      CurrentChild();
      var c := current.value;
      var key := children[c].Key();
      UpperAtEntry(lists[c], children[c].pos.value, key);
      TurnForward(c, key);
      children[c].Next();
      cuts := RightCuts();
      UpperCuts(lists, merged, cuts, key);
    }

    method Next()
      requires Inv() && Position().Some?
      modifies this, children
      ensures Inv() && direction == Forward
      ensures Position() == MergeStep(merged, old(Position()), old(direction), Move.Next)
    {
      hide IsMerge, CutAt, Sorted, Upper, LeftCut, RightCut;
      ghost var i := if direction.Forward? then at + 1 else Upper(merged, merged[at].entry.key);
      if direction.Forward? {
        AdvanceForward();
      } else {
        AdvanceTurned();
        direction := Forward;
      }
      FindSmallest(i);
      at := i;
    }

    method RetreatBackward()
      requires Inv() && current.Some? && direction.Reverse?
      modifies this`cuts, children
      ensures ChildrenOk() && StandingAt(Reverse, at)
    {
      CurrentChild();
      LeftCutsInRange();
      CutBackward(lists, merged, cuts, at);
      var c := current.value;
      children[c].Prev();
      cuts := cuts[c := cuts[c] - 1];
      assert forall d :: 0 <= d < |children| ==> old(StandsAt(d, Reverse, cuts[d]));
    }

    method RetreatTurned()
      requires Inv() && current.Some? && direction.Forward?
      modifies this`cuts, children
      ensures ChildrenOk() && StandingAt(Reverse, Lower(merged, merged[at].entry.key))
    {
      hide IsMerge, CutAt, AllSorted, Sorted, LeftCuts;
      CurrentChild();
      var c := current.value;
      var key := children[c].Key();
      LowerAtEntry(lists[c], children[c].pos.value, key);
      TurnBackward(c, key);
      children[c].Prev();
      cuts := LeftCuts();
      LowerCuts(lists, merged, cuts, key);
    }

    method Prev()
      requires Inv() && Position().Some?
      modifies this, children
      ensures Inv() && direction == Reverse
      ensures Position() == MergeStep(merged, old(Position()), old(direction), Move.Prev)
    {
      hide IsMerge, CutAt, Sorted, Lower, LeftCut, RightCut, ChildrenOk, Less, Standing;
      ghost var i := if direction.Reverse? then at else Lower(merged, merged[at].entry.key);
      if direction.Reverse? {
        RetreatBackward();
      } else {
        RetreatTurned();
        direction := Reverse;
      }
      FindLargest(i);
      at := if i > 0 then i - 1 else 0;
    }

    method Apply(move: Move<InternalKey>)
      requires Inv()
      modifies this, children
      ensures Inv() && Position() == MergeStep(merged, old(Position()), old(direction), move)
      ensures direction == DirectionAfter(old(Position()), old(direction), move)
    {
      match move
      case SeekToFirst => SeekToFirst();
      case SeekToLast => SeekToLast();
      case Seek(target) => Seek(target);
      case Next => if current.Some? { Next(); }
      case Prev => if current.Some? { Prev(); }
    }

    /** With no key in two children, any sequence of calls, with any changes of direction, moves
        like a cursor over the merge. */
    method Drive(moves: seq<Move<InternalKey>>)
      requires Inv() && !SharedKey(merged)
      modifies this, children
      ensures Inv() && Position() == Run(|merged|, old(Position()), moves, LowerSeek(merged))
    {
      CursorIffNoSharedKey(merged);
      for i := 0 to |moves|
        invariant Inv()
        invariant Position() == Run(|merged|, old(Position()), moves[..i], LowerSeek(merged))
      {
        assert moves[..i + 1][..i] == moves[..i];
        Apply(moves[i]);
      }
      assert moves[..|moves|] == moves;
    }
  }

  method TurnChildForward(child: Cursor, key: InternalKey)
    requires child.Valid()
    modifies child
    ensures child.Valid() && UpperCut(child.entries, key, RightCut(child.pos, |child.entries|))
  {
    child.Seek(key);
    SeekIsLowerCut(child.entries, key);
    var list := child.entries;
    if child.pos.Some? && child.Key() == key {
      UpperAtEntry(list, child.pos.value, key);
      child.Next();
    } else {
      UpperIsLower(list, key, RightCut(child.pos, |list|));
    }
  }

  method TurnChildBackward(child: Cursor, key: InternalKey)
    requires child.Valid()
    modifies child
    ensures child.Valid() && LowerCut(child.entries, key, LeftCut(child.pos))
  {
    child.Seek(key);
    SeekIsLowerCut(child.entries, key);
    if child.pos.Some? {
      child.Prev();
    } else {
      child.SeekToLast();
    }
  }

  lemma UpperAtEntry(list: seq<Entry>, i: nat, key: InternalKey)
    requires Sorted(list) && i < |list| && list[i].key == key
    ensures UpperCut(list, key, i + 1)
  {
    forall j | 0 <= j < |list| ensures j < i + 1 <==> !Less(key, list[j].key) {
      LessTotal(key, list[j].key);
    }
  }

  lemma LowerAtEntry(list: seq<Entry>, i: nat, key: InternalKey)
    requires Sorted(list) && i < |list| && list[i].key == key
    ensures LowerCut(list, key, i)
  {
    forall j | 0 <= j < |list| ensures j < i <==> Less(list[j].key, key) {
      LessTotal(key, list[j].key);
    }
  }

  /** Without an entry equal to `key` the two cuts coincide. */
  lemma UpperIsLower(list: seq<Entry>, key: InternalKey, cut: nat)
    requires Sorted(list) && LowerCut(list, key, cut) && (cut < |list| ==> list[cut].key != key)
    ensures UpperCut(list, key, cut)
  {
    forall j | 0 <= j < |list| ensures j < cut <==> !Less(key, list[j].key) {
      LessTotal(key, list[j].key);
      if j >= cut {
        LessTotal(key, list[cut].key);
        assert j > cut ==> Less(list[cut].key, list[j].key);
      }
    }
  }

  lemma CutAtStart(lists: seq<seq<Entry>>, merged: seq<Pair>, cuts: seq<nat>)
    requires IsMerge(lists, merged) && |cuts| == |lists| && forall d :: 0 <= d < |cuts| ==> cuts[d] == 0
    ensures CutAt(lists, merged, cuts, 0)
  {
    forall d, j | 0 <= d < |lists| && 0 <= j < |lists[d]| ensures !LeftOf(merged, 0, Pair(lists[d][j], d)) {
      var m := PairIndex(lists, merged, d, j);
      IndexLeftOf(merged, 0, m);
    }
  }

  lemma CutAtEnd(lists: seq<seq<Entry>>, merged: seq<Pair>, cuts: seq<nat>)
    requires |cuts| == |lists| && forall d :: 0 <= d < |lists| ==> cuts[d] == |lists[d]|
    ensures CutAt(lists, merged, cuts, |merged|)
  {
  }

  ghost function SeekCuts(lists: seq<seq<Entry>>, target: InternalKey): (cuts: seq<nat>)
    requires AllSorted(lists)
    ensures |cuts| == |lists|
    ensures forall d :: 0 <= d < |lists| ==>
      cuts[d] == SeekIndex(lists[d], target) && LowerCut(lists[d], target, cuts[d])
  {
    var cuts := seq(|lists|, d requires 0 <= d < |lists| => SeekIndex(lists[d], target));
    assert forall d :: 0 <= d < |lists| ==> LowerCut(lists[d], target, cuts[d]) by {
      forall d | 0 <= d < |lists| ensures LowerCut(lists[d], target, cuts[d]) {
        SeekIsLowerCut(lists[d], target);
      }
    }
    cuts
  }
}
