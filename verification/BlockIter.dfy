/** Block::Iter (block.cc): a cursor over the entries of a finished block, working on its bytes.
    On a block that BlockBuilder wrote no read meets a malformed entry, so the error exits of the
    parser are proved away instead of modelled.
  */
module BlockIter {
  import opened Keys
  import opened Coding
  import opened Cursors
  import opened Block

  /** Keys are ordered by their position under the comparator. */
  ghost predicate Ordered(entries: seq<Record>, rank: Bytes -> real) {
    forall i, j :: 0 <= i < j < |entries| ==> rank(entries[i].key) < rank(entries[j].key)
  }

  /** Index of the first key at or after `target`. */
  function FirstAtLeast(entries: seq<Record>, rank: Bytes -> real, target: Bytes): (i: nat)
    ensures i <= |entries|
    ensures forall j :: 0 <= j < i ==> rank(entries[j].key) < rank(target)
    ensures i < |entries| ==> rank(entries[i].key) >= rank(target)
  {
    if entries == [] || rank(entries[0].key) >= rank(target) then 0 else 1 + FirstAtLeast(entries[1..], rank, target)
  }

  ghost function RecordSeek(entries: seq<Record>, rank: Bytes -> real): Bytes -> int {
    target => FirstAtLeast(entries, rank, target)
  }

  // ---------- what the iterator finds in the bytes ----------

  /** The entries, their offsets (with the end of the last) and the restart points of a block. */
  datatype View = View(entries: seq<Record>, offs: seq<nat>, starts: seq<nat>)

  function LastKey(v: View, i: nat): Bytes
    requires i <= |v.entries|
  {
    if i == 0 then [] else v.entries[i - 1].key
  }

  /** Parsing at offset `i` gives entry `i`, its key completed from the key before it. */
  ghost predicate EntryAt(data: Bytes, restarts: nat, v: View, i: nat)
    requires i < |v.entries| && |v.offs| == |v.entries| + 1
  {
    v.offs[i] < v.offs[i + 1] <= restarts <= |data| &&
    var entry := DecodeEntry(data[v.offs[i]..restarts]);
    entry.Ok? && |entry.rest| <= restarts &&
    var h, p := entry.value, restarts - |entry.rest|;
    p + h.nonShared + h.valueLength == v.offs[i + 1] && h.shared <= |LastKey(v, i)| &&
    v.entries[i] == Record(LastKey(v, i)[..h.shared] + data[p..p + h.nonShared], data[p + h.nonShared..v.offs[i + 1]])
  }

  ghost predicate StartAt(data: Bytes, restarts: nat, v: View, k: nat)
    requires k < |v.starts| && |v.offs| == |v.entries| + 1
  {
    v.starts[k] <= |v.entries| && (k > 0 ==> v.starts[k] < |v.entries|) && restarts + 4 * k + 4 <= |data| &&
    FixedValue(data[restarts + 4 * k..restarts + 4 * k + 4]) == v.offs[v.starts[k]] &&
    (v.starts[k] < |v.entries| ==> v.offs[v.starts[k]] < restarts && NoSharing(data[v.offs[v.starts[k]]..restarts]))
  }

  ghost predicate NoSharing(input: Bytes) {
    DecodeEntry(input).Ok? && DecodeEntry(input).value.shared == 0
  }

  ghost predicate Ascending(s: seq<nat>) {
    forall i, j :: 0 <= i < j < |s| ==> s[i] < s[j]
  }

  /** A block's bytes show the view. */
  ghost predicate Shows(data: Bytes, restarts: nat, v: View) {
    |v.offs| == |v.entries| + 1 && v.offs[|v.entries|] == restarts && Ascending(v.offs) &&
    |v.starts| > 0 && v.starts[0] == 0 && Ascending(v.starts) &&
    (forall i :: 0 <= i < |v.entries| ==> EntryAt(data, restarts, v, i)) &&
    forall k :: 0 <= k < |v.starts| ==> StartAt(data, restarts, v, k)
  }

  // ---------- a built block shows its plan ----------

  /** A key is never longer than the block up to its entry's end. */
  lemma {:induction false} LengthsFit(p: Plan, i: nat)
    requires EntriesOk(p) && i < |p.entries|
    ensures |p.entries[i].key| + |p.entries[i].value| <= Off(p, i + 1)
  {
    hide EntryBytes, Body;
    assert SharesPrefix(p, i);
    EntryTail(p.shared[i], p.entries[i]);
    OffNext(p, i);
    if i > 0 {
      LengthsFit(p, i - 1);
    }
  }

  lemma OffNext(p: Plan, i: nat)
    requires EntriesOk(p) && i < |p.entries|
    ensures p.shared[i] <= |p.entries[i].key|
    ensures Off(p, i + 1) == Off(p, i) + |EntryBytes(p.shared[i], p.entries[i])|
  {
    assert SharesPrefix(p, i);
  }

  ghost function ViewOf(p: Plan): (v: View)
    requires PlanOk(p)
    ensures v.entries == p.entries && v.starts == p.starts && |v.offs| == |p.entries| + 1
    ensures forall i :: 0 <= i <= |p.entries| ==> v.offs[i] == Off(p, i)
  {
    View(p.entries, seq(|p.entries| + 1, i requires 0 <= i < |p.entries| + 1 => Off(p, i)), p.starts)
  }

  /** The parse of entry bytes that stand in `data` from `a` to `b`, with the block's data ending at `end`. */
  lemma ParsesInPlace(data: Bytes, a: nat, b: nat, end: nat, s: nat, r: Record)
    requires a < b <= end <= |data| && s <= |r.key| && |r.key| + |r.value| < TWO32
    requires data[a..b] == EntryBytes(s, r)
    ensures |r.key| - s + |r.value| <= b - a
    ensures var q := b - |r.value| - (|r.key| - s);
      DecodeEntry(data[a..end]) == Ok(EntryHeader(s, |r.key| - s, |r.value|), data[q..end]) &&
      data[q..q + (|r.key| - s)] == r.key[s..] && data[b - |r.value|..b] == r.value
  {
    EntryRoundTrip(s, r, data[b..end]);
    JoinSlices(data, a, b, end);
    EntryTail(s, r);
    TailInPlace(data, a, b, end, r.key[s..], r.value);
  }

  lemma JoinSlices(data: Bytes, a: nat, b: nat, end: nat)
    requires a <= b <= end <= |data|
    ensures data[a..end] == data[a..b] + data[b..end]
  {
  }

  lemma TailInPlace(data: Bytes, a: nat, b: nat, end: nat, delta: Bytes, value: Bytes)
    requires a <= b <= end <= |data| && |delta| + |value| <= b - a
    requires data[a..b][b - a - |delta| - |value|..] == delta + value
    ensures var q := b - |value| - |delta|;
      data[q..end] == delta + value + data[b..end] && data[q..q + |delta|] == delta && data[b - |value|..b] == value
  {
    var q := b - |value| - |delta|;
    var tail := delta + value;
    SliceOfSlice(data, a, b, q - a, b - a);
    assert data[q..b] == tail;
    JoinSlices(data, q, b, end);
    SliceOfSlice(data, q, b, 0, |delta|);
    SliceOfSlice(data, q, b, |delta|, |tail|);
    assert tail[0..|delta|] == delta && tail[|delta|..|tail|] == value;
  }

  lemma EntryTail(s: nat, r: Record)
    requires s <= |r.key|
    ensures var e := EntryBytes(s, r); var n := |r.key| - s + |r.value|;
      n <= |e| && e[|e| - n..] == r.key[s..] + r.value
  {
    var lengths := PutVarint(s) + PutVarint(|r.key| - s) + PutVarint(|r.value|);
    assert EntryBytes(s, r) == lengths + (r.key[s..] + r.value);
  }

  lemma BuiltEntry(p: Plan, data: Bytes, i: nat)
    requires PlanOk(p) && |data| < TWO32 && i < |p.entries|
    requires Off(p, |p.entries|) <= |data| && data[..Off(p, |p.entries|)] == Body(p, |p.entries|)
    ensures EntryAt(data, Off(p, |p.entries|), ViewOf(p), i)
    ensures DecodeEntry(data[Off(p, i)..Off(p, |p.entries|)]).value.shared == p.shared[i]
  {
    BuiltSlice(p, data, i);
    LengthsFit(p, i);
    BodyPrefix(p, i + 1, |p.entries|);
    assert SharesPrefix(p, i);
    EntryFromBytes(data, Off(p, |p.entries|), ViewOf(p), i, p.shared[i]);
  }

  lemma BuiltSlice(p: Plan, data: Bytes, i: nat)
    requires EntriesOk(p) && i < |p.entries|
    requires Off(p, |p.entries|) <= |data| && data[..Off(p, |p.entries|)] == Body(p, |p.entries|)
    ensures p.shared[i] <= |p.entries[i].key| && Off(p, i) < Off(p, i + 1) <= Off(p, |p.entries|)
    ensures data[Off(p, i)..Off(p, i + 1)] == EntryBytes(p.shared[i], p.entries[i])
  {
    hide Body, EntryBytes, EntriesOk;
    EntryInBody(p, i);
    BodyPrefix(p, i, i + 1);
    assert data[Off(p, i)..Off(p, i + 1)] == data[..Off(p, |p.entries|)][Off(p, i)..Off(p, i + 1)];
  }

  lemma EntryFromBytes(data: Bytes, end: nat, v: View, i: nat, s: nat)
    requires i < |v.entries| == |v.offs| - 1 && v.offs[i] < v.offs[i + 1] <= end <= |data|
    requires s <= |v.entries[i].key| && s <= |LastKey(v, i)| && LastKey(v, i)[..s] == v.entries[i].key[..s]
    requires |v.entries[i].key| + |v.entries[i].value| < TWO32
    requires data[v.offs[i]..v.offs[i + 1]] == EntryBytes(s, v.entries[i])
    ensures EntryAt(data, end, v, i) && DecodeEntry(data[v.offs[i]..end]).value.shared == s
  {
    hide EntryBytes, LastKey;
    var r := v.entries[i];
    ParsesInPlace(data, v.offs[i], v.offs[i + 1], end, s, r);
    assert r.key == r.key[..s] + r.key[s..];
  }

  lemma BuiltStart(p: Plan, data: Bytes, k: nat)
    requires PlanOk(p) && |data| < TWO32 && k < |p.starts| && Off(p, |p.entries|) + 4 * |p.starts| <= |data|
    requires data[..Off(p, |p.entries|)] == Body(p, |p.entries|)
    requires data[Off(p, |p.entries|)..Off(p, |p.entries|) + 4 * |p.starts|] == FixedArray(RestartOffsets(p))
    ensures StartAt(data, Off(p, |p.entries|), ViewOf(p), k)
  {
    var v, end := ViewOf(p), Off(p, |p.entries|);
    BuiltPoint(data, end, RestartOffsets(p), k, v.offs[v.starts[k]]);
    BodyPrefix(p, p.starts[k], |p.entries|);
    if p.starts[k] < |p.entries| {
      BuiltEntry(p, data, p.starts[k]);
    }
    StartFromBytes(data, end, v, k);
  }

  lemma StartFromBytes(data: Bytes, end: nat, v: View, k: nat)
    requires k < |v.starts| && |v.offs| == |v.entries| + 1 && end + 4 * k + 4 <= |data| < TWO32
    requires v.starts[k] <= |v.entries| && (k > 0 ==> v.starts[k] < |v.entries|)
    requires v.offs[v.starts[k]] <= end && data[end + 4 * k..end + 4 * k + 4] == Fixed32(v.offs[v.starts[k]])
    requires v.starts[k] < |v.entries| ==>
      EntryAt(data, end, v, v.starts[k]) && DecodeEntry(data[v.offs[v.starts[k]]..end]).value.shared == 0
    ensures StartAt(data, end, v, k)
  {
    Fixed32RoundTrip(v.offs[v.starts[k]]);
  }

  lemma BuiltPoint(data: Bytes, base: nat, a: seq<nat>, k: nat, x: nat)
    requires k < |a| && a[k] == x && base + 4 * |a| <= |data| && data[base..base + 4 * |a|] == FixedArray(a)
    ensures data[base + 4 * k..base + 4 * k + 4] == Fixed32(x)
  {
    FixedArrayAt(a, k);
    PartOf(data, base, FixedArray(a), 4 * k, base + 4 * k);
  }

  lemma BuiltShows(p: Plan, data: Bytes)
    requires PlanOk(p) && data == BlockBytes(p) && |data| < TWO32
    ensures Shows(data, Off(p, |p.entries|), ViewOf(p))
    ensures |data| == Off(p, |p.entries|) + 4 * |p.starts| + 4 && FixedValue(data[|data| - 4..]) == |p.starts|
  {
    hide EntryAt, StartAt, FixedArray, Body;
    var base, n := Off(p, |p.entries|), |p.starts|;
    assert data[..base] == Body(p, |p.entries|);
    assert data[base..base + 4 * n] == FixedArray(RestartOffsets(p));
    assert data[|data| - 4..] == Fixed32(n);
    Fixed32RoundTrip(n);
    forall i | 0 <= i < |p.entries| ensures EntryAt(data, base, ViewOf(p), i) { BuiltEntry(p, data, i); }
    forall k | 0 <= k < n ensures StartAt(data, base, ViewOf(p), k) { BuiltStart(p, data, k); }
    forall i, j | 0 <= i < j < |ViewOf(p).offs| ensures ViewOf(p).offs[i] < ViewOf(p).offs[j] { BodyPrefix(p, i, j); }
  }

  // ---------- the iterator ----------

  class BlockIter {
    const data: Bytes
    const rank: Bytes -> real
    /** Offset and length of the restart array. */
    const restarts: nat
    const numRestarts: nat
    var current: nat
    var restartIndex: nat
    var key: Bytes
    var valueOffset: nat
    var valueLength: nat
    ghost const view: View
    ghost var at: nat

    ghost predicate BlockOk() {
      Shows(data, restarts, view) && numRestarts == |view.starts|
    }

    /** Ready to parse entry `i`. */
    ghost predicate Before(i: nat) reads this {
      i < |view.offs| == |view.entries| + 1 && valueOffset + valueLength == view.offs[i] &&
      restartIndex < |view.starts| && view.starts[restartIndex] <= i &&
      (i < |view.entries| && view.offs[i] < restarts <= |data| ==>
        key == LastKey(view, i) || NoSharing(data[view.offs[i]..restarts]))
    }

    /** Standing at entry `i`. */
    ghost predicate StandsAt(i: nat) reads this {
      i < |view.entries| == |view.offs| - 1 && current == view.offs[i] && key == view.entries[i].key &&
      valueOffset + valueLength == view.offs[i + 1] <= |data| &&
      data[valueOffset..valueOffset + valueLength] == view.entries[i].value &&
      restartIndex < |view.starts| && view.starts[restartIndex] <= i
    }

    ghost predicate Inv() reads this {
      BlockOk() && Ordered(view.entries, rank) && current <= restarts && (current < restarts ==> StandsAt(at))
    }

    ghost function Position(): Option<nat> reads this {
      if current < restarts then Some(at) else None
    }

    constructor (data: Bytes, rank: Bytes -> real, ghost plan: Plan)
      requires PlanOk(plan) && data == BlockBytes(plan) && |data| < TWO32 && Ordered(plan.entries, rank)
      ensures Inv() && Position() == None && view.entries == plan.entries && this.rank == rank && this.data == data
    {
      BuiltShows(plan, data);
      var n := FixedValue(data[|data| - 4..]);
      this.data, this.rank, view := data, rank, ViewOf(plan);
      numRestarts, restarts := n, |data| - (1 + n) * 4;
      current, restartIndex, key, valueOffset, valueLength, at := |data| - (1 + n) * 4, n, [], 0, 0, 0;
    }

    method Current() returns (r: Option<Record>)
      requires Inv()
      ensures Position().Some? ==> at < |view.entries| && r == Some(view.entries[at])
      ensures Position().None? ==> r == None
    {
      r := if current < restarts then Some(Record(key, data[valueOffset..valueOffset + valueLength])) else None;
    }

    method GetRestartPoint(index: nat) returns (offset: nat)
      requires BlockOk() && index < numRestarts
      ensures view.starts[index] <= |view.entries| && (index > 0 ==> view.starts[index] < |view.entries|)
      ensures offset == view.offs[view.starts[index]]
    {
      assert StartAt(data, restarts, view, index);
      offset := FixedValue(data[restarts + 4 * index..restarts + 4 * index + 4]);
    }

    method SeekToRestartPoint(index: nat)
      requires BlockOk() && index < numRestarts
      modifies this
      ensures Before(view.starts[index]) && restartIndex == index && at == old(at)
    {
      assert StartAt(data, restarts, view, index);
      key := [];
      restartIndex := index;
      var offset := GetRestartPoint(index);
      valueOffset, valueLength := offset, 0;
    }

    /** Parses entry `i`, the one after the current value; false at the end of the block. */
    method ParseNextKey(ghost i: nat) returns (ok: bool)
      requires BlockOk() && Before(i)
      modifies this
      ensures ok <==> i < |view.entries|
      ensures ok ==> StandsAt(i) && current < restarts
      ensures !ok ==> current == restarts
      ensures at == old(at)
    {
      current := valueOffset + valueLength;
      assert i < |view.entries| ==> EntryAt(data, restarts, view, i);
      if current >= restarts {
        current, restartIndex := restarts, numRestarts;
        return false;
      }
      TakeEntry(i);
      AdvanceRestart(i);
      ok := true;
    }

    method TakeEntry(ghost i: nat)
      requires BlockOk() && Before(i) && i < |view.entries| && current == view.offs[i] &&
        EntryAt(data, restarts, view, i)
      modifies this`key, this`valueOffset, this`valueLength
      ensures StandsAt(i)
    {
      var entry := DecodeEntry(data[current..restarts]);
      var h, p := entry.value, restarts - |entry.rest|;
      key := key[..h.shared] + data[p..p + h.nonShared];
      valueOffset, valueLength := p + h.nonShared, h.valueLength;
    }

    /** Tracks the restart block; the last restart point before the entry, or the one it is at. */
    method AdvanceRestart(ghost i: nat)
      requires BlockOk() && StandsAt(i)
      modifies this`restartIndex
      ensures StandsAt(i)
      ensures restartIndex + 1 < numRestarts ==> i <= view.starts[restartIndex + 1]
    {
      while restartIndex + 1 < numRestarts
        invariant StandsAt(i)
        decreases numRestarts - restartIndex
      {
        var next := GetRestartPoint(restartIndex + 1);
        if next >= current { break; }
        restartIndex := restartIndex + 1;
      }
    }

    method Next()
      requires Inv() && Position().Some?
      modifies this
      ensures Inv() && Position() == Clip(old(Position()).value + 1, |view.entries|)
    {
      ghost var i := at + 1;
      var ok := ParseNextKey(i);
      at := i;
    }

    /** The restart index of a restart point before the current entry, if there is one. */
    method BackToRestart() returns (found: bool)
      requires Inv() && current < restarts
      modifies this`restartIndex
      ensures found ==> restartIndex < numRestarts && view.starts[restartIndex] < at
      ensures !found ==> at == 0
    {
      var point := GetRestartPoint(restartIndex);
      while point >= current
        invariant restartIndex < numRestarts && view.starts[restartIndex] <= at
        invariant point == view.offs[view.starts[restartIndex]]
        decreases restartIndex
      {
        if restartIndex == 0 {
          return false;
        }
        restartIndex := restartIndex - 1;
        point := GetRestartPoint(restartIndex);
      }
      found := true;
    }

    method Prev()
      requires Inv() && Position().Some?
      modifies this
      ensures Inv() && Position() == Clip(old(Position()).value - 1, |view.entries|)
    {
      var original := current;
      ghost var was := at;
      var found := BackToRestart();
      if !found {
        current, restartIndex := restarts, numRestarts;
        return;
      }
      ScanUpTo(original, was);
    }

    /** From the restart point, parses on to the last entry that ends by `original`. */
    method ScanUpTo(original: nat, ghost was: nat)
      requires BlockOk() && was < |view.entries| && original == view.offs[was]
      requires restartIndex < numRestarts && view.starts[restartIndex] < was
      modifies this
      ensures StandsAt(was - 1) && at == was - 1 && current < restarts
    {
      at := view.starts[restartIndex];
      SeekToRestartPoint(restartIndex);
      var more := ParseNextKey(at);
      while more && valueOffset + valueLength < original
        invariant more && at < was && StandsAt(at) && current < restarts
        decreases was - at
      {
        ghost var i := at + 1;
        more := ParseNextKey(i);
        at := i;
      }
    }

    /** Binary search for the last restart point with a key before `target`. */
    method SearchRestarts(target: Bytes) returns (left: nat)
      requires BlockOk()
      ensures left < numRestarts
      ensures left > 0 ==>
        view.starts[left] < |view.entries| && rank(view.entries[view.starts[left]].key) < rank(target)
    {
      left := 0;
      var right := numRestarts - 1;
      while left < right
        invariant left <= right < numRestarts
        invariant left > 0 ==>
          view.starts[left] < |view.entries| && rank(view.entries[view.starts[left]].key) < rank(target)
      {
        var mid := (left + right + 1) / 2;
        var midKey := RestartKey(mid);
        if rank(midKey) < rank(target) {
          left := mid;
        } else {
          right := mid - 1;
        }
      }
    }

    /** The key at a restart point, which is stored whole. */
    method RestartKey(index: nat) returns (k: Bytes)
      requires BlockOk() && 0 < index < numRestarts
      ensures view.starts[index] < |view.entries| && k == view.entries[view.starts[index]].key
    {
      assert StartAt(data, restarts, view, index);
      assert EntryAt(data, restarts, view, view.starts[index]);
      var regionOffset := GetRestartPoint(index);
      var entry := DecodeEntry(data[regionOffset..restarts]);
      assert entry.value.shared == 0;
      var keyOffset := restarts - |entry.rest|;
      k := data[keyOffset..keyOffset + entry.value.nonShared];
    }

    /** What follows the entry the iterator stands at is the next one. */
    lemma AfterEntry(i: nat)
      requires BlockOk() && StandsAt(i)
      ensures Before(i + 1)
    {
    }

    /** Parses on to the first key at or after `target`. */
    method ScanToTarget(target: Bytes, ghost goal: nat)
      requires BlockOk() && Before(at) && at <= goal == FirstAtLeast(view.entries, rank, target)
      modifies this
      ensures BlockOk() && at == goal && (goal < |view.entries| ==> StandsAt(goal) && current < restarts)
      ensures goal == |view.entries| ==> current == restarts
    {
      hide StartAt, EntryAt, DecodeEntry, Before, Shows;
      var more := ParseNextKey(at);
      while more && rank(key) < rank(target)
        invariant at <= goal && (more <==> at < |view.entries|)
        invariant more ==> StandsAt(at) && current < restarts
        invariant !more ==> current == restarts
        decreases |view.entries| - at
      {
        AfterEntry(at);
        ghost var i := at + 1;
        more := ParseNextKey(i);
        at := i;
      }
    }

    method Seek(target: Bytes)
      requires Inv()
      modifies this
      ensures Inv() && Position() == Clip(FirstAtLeast(view.entries, rank, target), |view.entries|)
    {
      hide StartAt, EntryAt, DecodeEntry, Before;
      var left := SearchRestarts(target);
      at := view.starts[left];
      SeekToRestartPoint(left);
      ghost var goal := FirstAtLeast(view.entries, rank, target);
      GoalAfter(view.entries, rank, target, at);
      ScanToTarget(target, goal);
    }

    method SeekToFirst()
      requires Inv()
      modifies this
      ensures Inv() && Position() == Clip(0, |view.entries|)
    {
      SeekToRestartPoint(0);
      at := 0;
      var ok := ParseNextKey(at);
    }

    method SeekToLast()
      requires Inv()
      modifies this
      ensures Inv() && Position() == Clip(|view.entries| - 1, |view.entries|)
    {
      LastStart();
      at := view.starts[numRestarts - 1];
      SeekToRestartPoint(numRestarts - 1);
      var more := ParseNextKey(at);
      if more {
        ScanToEnd();
      }
    }

    lemma LastStart()
      requires BlockOk()
      ensures numRestarts > 0 && view.starts[numRestarts - 1] <= |view.entries|
      ensures view.starts[numRestarts - 1] == |view.entries| ==> |view.entries| == 0
    {
      assert StartAt(data, restarts, view, numRestarts - 1);
    }

    /** Parses on to the last entry. */
    method ScanToEnd()
      requires BlockOk() && StandsAt(at) && current < restarts
      modifies this
      ensures StandsAt(|view.entries| - 1) && at == |view.entries| - 1 && current < restarts
    {
      while valueOffset + valueLength < restarts
        invariant StandsAt(at) && current < restarts
        decreases |view.entries| - at
      {
        ghost var i := at + 1;
        var more := ParseNextKey(i);
        at := i;
      }
    }

    method Apply(move: Move<Bytes>)
      requires Inv()
      modifies this
      ensures Inv()
      ensures Position() == Step(|view.entries|, old(Position()), move, RecordSeek(view.entries, rank))
    {
      match move
      case SeekToFirst => SeekToFirst();
      case SeekToLast => SeekToLast();
      case Seek(target) => Seek(target);
      case Next => if current < restarts { Next(); }
      case Prev => if current < restarts { Prev(); }
    }

    /** Any sequence of calls moves like a cursor over the entries of the block. */
    method Drive(moves: seq<Move<Bytes>>)
      requires Inv()
      modifies this
      ensures Inv()
      ensures Position() == Run(|view.entries|, old(Position()), moves, RecordSeek(view.entries, rank))
    {
      for i := 0 to |moves|
        invariant Inv()
        invariant Position() == Run(|view.entries|, old(Position()), moves[..i], RecordSeek(view.entries, rank))
      {
        assert moves[..i + 1][..i] == moves[..i];
        Apply(moves[i]);
      }
      assert moves[..|moves|] == moves;
    }
  }

  /** An entry before `target` is not past the goal of the search. */
  lemma GoalAfter(entries: seq<Record>, rank: Bytes -> real, target: Bytes, i: nat)
    requires Ordered(entries, rank) && (i == 0 || (i < |entries| && rank(entries[i].key) < rank(target)))
    ensures i <= FirstAtLeast(entries, rank, target)
  {
    forall j | 0 <= j < i ensures rank(entries[j].key) < rank(target) {
    }
  }

  // ---------- round trip ----------

  method BuildBlock(entries: seq<Record>, interval: nat) returns (block: Bytes, ghost plan: Plan)
    requires interval >= 1
    ensures PlanOk(plan) && plan.entries == entries && block == BlockBytes(plan)
  {
    hide PlanOk, BlockBytes, Holds;
    var builder := new BlockBuilder(interval);
    for i := 0 to |entries|
      invariant fresh(builder) && builder.Valid() && !builder.finished && builder.plan.entries == entries[..i]
    {
      builder.Add(entries[i].key, entries[i].value);
    }
    assert entries[..|entries|] == entries;
    block := builder.Finish();
    plan := builder.plan;
  }

  /** Building a block and iterating over it gives back the entries. */
  method BuildAndIterate(entries: seq<Record>, rank: Bytes -> real, interval: nat)
    returns (block: Bytes, read: Option<seq<Record>>)
    requires interval >= 1 && Ordered(entries, rank)
    ensures |block| < TWO32 ==> read == Some(entries)
  {
    ghost var plan;
    block, plan := BuildBlock(entries, interval);
    if |block| >= TWO32 {
      return block, None;
    }
    var iter := new BlockIter(block, rank, plan);
    var all := ReadBlock(iter);
    read := Some(all);
  }

  method ReadBlock(iter: BlockIter) returns (all: seq<Record>)
    requires iter.Inv()
    modifies iter
    ensures all == iter.view.entries
  {
    all := [];
    iter.SeekToFirst();
    while iter.current < iter.restarts
      invariant iter.Inv() && iter.Position() == Clip(|all|, |iter.view.entries|)
      invariant |all| <= |iter.view.entries| && all == iter.view.entries[..|all|]
      decreases |iter.view.entries| - |all|
    {
      var r := iter.Current();
      all := all + [r.value];
      iter.Next();
    }
  }
}
