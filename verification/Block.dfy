/** Prefix-compressed blocks with restart points (block_builder.cc, block.cc).

    A built block is described by a plan: the entries, how many key bytes each shares with the entry
    before it, and which entries are restart points.  The builder is proved to write some plan of its
    entries; the iterator is proved to be a cursor over the entries of any plan.
  */
module Block {
  import opened Keys
  import opened Coding
  import opened Cursors
  import opened Sequences

  datatype Record = Record(key: Bytes, value: Bytes)

  datatype Plan = Plan(entries: seq<Record>, shared: seq<nat>, starts: seq<nat>)

  // ---------- the format ----------

  /** One entry: the three lengths, the unshared end of the key, the value. */
  function EntryBytes(shared: nat, r: Record): Bytes
    requires shared <= |r.key|
  {
    PutVarint(shared) + (PutVarint(|r.key| - shared) + (PutVarint(|r.value|) + (r.key[shared..] + r.value)))
  }

  ghost predicate SharesPrefix(p: Plan, i: nat)
    requires i < |p.entries| == |p.shared|
  {
    var s := p.shared[i];
    s <= |p.entries[i].key| &&
    if i == 0 then s == 0
    else s <= |p.entries[i - 1].key| && p.entries[i - 1].key[..s] == p.entries[i].key[..s]
  }

  ghost predicate EntriesOk(p: Plan) {
    |p.shared| == |p.entries| && forall i :: 0 <= i < |p.entries| ==> SharesPrefix(p, i)
  }

  /** Restart points ascend from the first entry and share nothing. */
  ghost predicate StartsOk(p: Plan) {
    |p.shared| == |p.entries| && |p.starts| > 0 && p.starts[0] == 0 &&
    (forall k :: 0 < k < |p.starts| ==> p.starts[k] < |p.entries|) &&
    (forall k :: 0 <= k < |p.starts| && p.starts[k] < |p.entries| ==> p.shared[p.starts[k]] == 0) &&
    forall k, l :: 0 <= k < l < |p.starts| ==> p.starts[k] < p.starts[l]
  }

  ghost predicate PlanOk(p: Plan) {
    EntriesOk(p) && StartsOk(p)
  }

  /** The first `n` entries as bytes. */
  ghost function Body(p: Plan, n: nat): Bytes
    requires EntriesOk(p) && n <= |p.entries|
  {
    if n == 0 then [] else assert SharesPrefix(p, n - 1); Body(p, n - 1) + EntryBytes(p.shared[n - 1], p.entries[n - 1])
  }

  ghost function Off(p: Plan, n: nat): nat
    requires EntriesOk(p) && n <= |p.entries|
  {
    |Body(p, n)|
  }

  ghost function RestartOffsets(p: Plan): (r: seq<nat>)
    requires PlanOk(p)
    ensures |r| == |p.starts|
  {
    seq(|p.starts|, k requires 0 <= k < |p.starts| => Off(p, p.starts[k]))
  }

  function FixedArray(a: seq<nat>): (b: Bytes)
    ensures |b| == 4 * |a|
  {
    if a == [] then [] else FixedArray(a[..|a| - 1]) + Fixed32(a[|a| - 1])
  }

  /** A finished block. */
  ghost function BlockBytes(p: Plan): Bytes
    requires PlanOk(p)
  {
    Body(p, |p.entries|) + FixedArray(RestartOffsets(p)) + Fixed32(|p.starts|)
  }

  lemma {:induction false} BodyPrefix(p: Plan, i: nat, j: nat)
    requires EntriesOk(p) && i <= j <= |p.entries|
    ensures Off(p, i) + 3 * (j - i) <= Off(p, j) && Body(p, j)[..Off(p, i)] == Body(p, i)
    decreases j - i
  {
    if i == j {
    } else {
      BodyPrefix(p, i, j - 1);
      assert SharesPrefix(p, j - 1);
    }
  }

  /** Entry `i` sits between its offsets. */
  lemma EntryInBody(p: Plan, i: nat)
    requires EntriesOk(p) && i < |p.entries|
    ensures p.shared[i] <= |p.entries[i].key|
    ensures Off(p, i) <= Off(p, i + 1) <= Off(p, |p.entries|)
    ensures Body(p, |p.entries|)[Off(p, i)..Off(p, i + 1)] == EntryBytes(p.shared[i], p.entries[i])
  {
    assert SharesPrefix(p, i);
    BodyPrefix(p, i + 1, |p.entries|);
    var body := Body(p, |p.entries|);
    assert body[Off(p, i)..Off(p, i + 1)] == body[..Off(p, i + 1)][Off(p, i)..];
  }

  lemma {:induction false} FixedArrayAt(a: seq<nat>, k: nat)
    requires k < |a|
    ensures FixedArray(a)[4 * k..4 * k + 4] == Fixed32(a[k])
  {
    var n := |a| - 1;
    if k < n {
      FixedArrayAt(a[..n], k);
      assert FixedArray(a)[4 * k..4 * k + 4] == FixedArray(a[..n])[4 * k..4 * k + 4];
    } else {
      assert FixedArray(a)[4 * n..4 * n + 4] == Fixed32(a[n]);
    }
  }

  // ---------- parsing one entry ----------

  datatype EntryHeader = EntryHeader(shared: nat, nonShared: nat, valueLength: nat)

  function CheckLengths(h: EntryHeader, rest: Bytes): Parsed<EntryHeader> {
    if |rest| < (h.nonShared + h.valueLength) % TWO32 then Fail else Ok(h, rest)
  }

  function DecodeLengths(input: Bytes): Parsed<EntryHeader> {
    match GetVarint32(input)
    case Fail => Fail
    case Ok(shared, r1) =>
      match GetVarint32(r1)
      case Fail => Fail
      case Ok(nonShared, r2) =>
        match GetVarint32(r2)
        case Fail => Fail
        case Ok(valueLength, r3) => CheckLengths(EntryHeader(shared, nonShared, valueLength), r3)
  }

  /** DecodeEntry, with its fast path for three one-byte lengths. */
  function DecodeEntry(input: Bytes): Parsed<EntryHeader> {
    if |input| < 3 then Fail
    else if input[0] < 128 && input[1] < 128 && input[2] < 128 then
      CheckLengths(EntryHeader(input[0], input[1], input[2]), input[3..])
    else DecodeLengths(input)
  }

  lemma OneByte(input: Bytes)
    requires input != [] && input[0] < 128
    ensures GetVarint32(input) == Ok(input[0] as int, input[1..])
  {
    assert PutVarint(input[0]) + input[1..] == input;
    Varint32RoundTrip(input[0], input[1..]);
  }

  lemma FastPathAgrees(input: Bytes)
    requires |input| >= 3
    ensures DecodeEntry(input) == DecodeLengths(input)
  {
    if input[0] < 128 && input[1] < 128 && input[2] < 128 {
      OneByte(input);
      OneByte(input[1..]);
      OneByte(input[1..][1..]);
    }
  }

  lemma LengthsRoundTrip(h: EntryHeader, rest: Bytes)
    requires h.shared < TWO32 && h.nonShared < TWO32 && h.valueLength < TWO32
    ensures DecodeLengths(PutVarint(h.shared) + (PutVarint(h.nonShared) + (PutVarint(h.valueLength) + rest))) ==
            CheckLengths(h, rest)
  {
    var v2, v3 := PutVarint(h.nonShared), PutVarint(h.valueLength);
    Varint32RoundTrip(h.shared, v2 + (v3 + rest));
    Varint32RoundTrip(h.nonShared, v3 + rest);
    Varint32RoundTrip(h.valueLength, rest);
  }

  lemma EntryRoundTrip(shared: nat, r: Record, tail: Bytes)
    requires shared <= |r.key| && |r.key| + |r.value| < TWO32
    ensures DecodeEntry(EntryBytes(shared, r) + tail) ==
            Ok(EntryHeader(shared, |r.key| - shared, |r.value|), r.key[shared..] + r.value + tail)
  {
    var h := EntryHeader(shared, |r.key| - shared, |r.value|);
    var v1, v2, v3 := PutVarint(h.shared), PutVarint(h.nonShared), PutVarint(h.valueLength);
    var delta := r.key[shared..] + r.value;
    Associative(v1, v2 + (v3 + delta), tail);
    Associative(v2, v3 + delta, tail);
    Associative(v3, delta, tail);
    DecodesTo(h, EntryBytes(shared, r) + tail, r.key[shared..] + r.value + tail);
  }

  lemma DecodesTo(h: EntryHeader, input: Bytes, rest: Bytes)
    requires input == PutVarint(h.shared) + (PutVarint(h.nonShared) + (PutVarint(h.valueLength) + rest))
    requires h.shared < TWO32 && h.nonShared + h.valueLength < TWO32 && h.nonShared + h.valueLength <= |rest|
    ensures DecodeEntry(input) == Ok(h, rest)
  {
    hide DecodeEntry, DecodeLengths, PutVarint;
    LengthsRoundTrip(h, rest);
    FastPathAgrees(input);
  }

  // ---------- the builder ----------

  /** Length of the common prefix. */
  function Common(a: Bytes, b: Bytes): (n: nat)
    ensures n <= |a| && n <= |b| && a[..n] == b[..n]
    ensures n < |a| && n < |b| ==> a[n] != b[n]
  {
    if a != [] && b != [] && a[0] == b[0] then
      var n := 1 + Common(a[1..], b[1..]);
      assert a[..n] == [a[0]] + a[1..][..n - 1] && b[..n] == [b[0]] + b[1..][..n - 1];
      n
    else 0
  }

  /** Adding an entry, and perhaps a restart point at it, keeps a plan and extends its bytes. */
  lemma AddEntry(p: Plan, q: Plan, shared: nat, r: Record)
    requires PlanOk(p) && q.entries == p.entries + [r] && q.shared == p.shared + [shared]
    requires shared <= |r.key|
    requires if p.entries == [] then shared == 0
             else var last := p.entries[|p.entries| - 1].key; shared <= |last| && last[..shared] == r.key[..shared]
    requires q.starts == p.starts || (q.starts == p.starts + [|p.entries|] && p.entries != [] && shared == 0)
    ensures PlanOk(q) && Body(q, |q.entries|) == Body(p, |p.entries|) + EntryBytes(shared, r)
    ensures RestartOffsets(q) == RestartOffsets(p) + if q.starts == p.starts then [] else [Off(p, |p.entries|)]
  {
    hide EntryBytes;
    var n := |p.entries|;
    forall i | 0 <= i <= n ensures SharesPrefix(q, i) {
      if i < n { assert SharesPrefix(p, i); }
    }
    forall k | 0 <= k <= n ensures Body(q, k) == Body(p, k) {
      BodyFrame(p, q, k);
    }
  }

  lemma {:induction false} BodyFrame(p: Plan, q: Plan, n: nat)
    requires EntriesOk(p) && EntriesOk(q) && n <= |p.entries| && n <= |q.entries|
    requires forall i :: 0 <= i < n ==> p.entries[i] == q.entries[i] && p.shared[i] == q.shared[i]
    ensures Body(p, n) == Body(q, n)
  {
    if n == 0 {
    } else {
      BodyFrame(p, q, n - 1);
    }
  }

  lemma CommonUnique(a: Bytes, b: Bytes, n: nat)
    requires n <= |a| && n <= |b| && a[..n] == b[..n] && (n == |a| || n == |b| || a[n] != b[n])
    ensures Common(a, b) == n
  {
    var m := Common(a, b);
    assert forall k :: 0 <= k < n ==> a[..n][k] == b[..n][k] && a[k] == a[..n][k] && b[k] == b[..n][k];
    assert forall k :: 0 <= k < m ==> a[..m][k] == b[..m][k] && a[k] == a[..m][k] && b[k] == b[..m][k];
  }

  /** The plan after one more entry: compressed against the last key, or a new restart point. */
  ghost function NextPlan(p: Plan, compress: bool, r: Record): Plan {
    if compress then
      var shared := if p.entries == [] then 0 else Common(p.entries[|p.entries| - 1].key, r.key);
      Plan(p.entries + [r], p.shared + [shared], p.starts)
    else Plan(p.entries + [r], p.shared + [0], p.starts + [|p.entries|])
  }

  /** The builder's fields while entries are being added. */
  ghost predicate Holds(p: Plan, buffer: Bytes, restarts: seq<nat>, lastKey: Bytes) {
    PlanOk(p) && buffer == Body(p, |p.entries|) && restarts == RestartOffsets(p) &&
    lastKey == if p.entries == [] then [] else p.entries[|p.entries| - 1].key
  }

  lemma AddHolds(p: Plan, buffer: Bytes, restarts: seq<nat>, lastKey: Bytes, compress: bool, r: Record, shared: nat)
    requires Holds(p, buffer, restarts, lastKey) && (p.entries == [] ==> compress)
    requires shared == if compress then Common(lastKey, r.key) else 0
    ensures var q := NextPlan(p, compress, r);
      Holds(q, buffer + EntryBytes(shared, r), if compress then restarts else restarts + [|buffer|], r.key) &&
      lastKey[..shared] + r.key[shared..] == r.key
  {
    hide EntryBytes;
    AddEntry(p, NextPlan(p, compress, r), shared, r);
    assert r.key == r.key[..shared] + r.key[shared..];
  }

  method AppendFixedArray(buffer: Bytes, a: seq<nat>) returns (r: Bytes)
    ensures r == buffer + FixedArray(a)
  {
    r := buffer;
    for i := 0 to |a|
      invariant r == buffer + FixedArray(a[..i])
    {
      assert a[..i + 1][..i] == a[..i];
      r := r + Fixed32(a[i]);
    }
    assert a[..|a|] == a;
  }

  method AppendEntry(buffer: Bytes, shared: nat, r: Record) returns (buffer': Bytes)
    requires shared <= |r.key|
    ensures buffer' == buffer + EntryBytes(shared, r)
  {
    buffer' := buffer + PutVarint(shared);
    buffer' := buffer' + PutVarint(|r.key| - shared);
    buffer' := buffer' + PutVarint(|r.value|);
    buffer' := buffer' + r.key[shared..];
    buffer' := buffer' + r.value;
    assert buffer' == buffer + EntryBytes(shared, r);
  }

  class BlockBuilder {
    const restartInterval: nat
    var buffer: Bytes
    var restarts: seq<nat>
    var counter: nat
    var lastKey: Bytes
    var finished: bool
    /** The plan of what was added since the last Reset. */
    ghost var plan: Plan

    ghost predicate Valid() reads this {
      restartInterval >= 1 && counter <= restartInterval && (plan.entries == [] ==> counter == 0) &&
      if finished then PlanOk(plan) && buffer == BlockBytes(plan)
      else Holds(plan, buffer, restarts, lastKey)
    }

    constructor (restartInterval: nat)
      requires restartInterval >= 1
      ensures Valid() && !finished && plan.entries == [] && this.restartInterval == restartInterval
    {
      this.restartInterval := restartInterval;
      buffer, restarts, counter, lastKey, finished := [], [0], 0, [], false;
      plan := Plan([], [], [0]);
    }

    method Reset()
      requires Valid()
      modifies this
      ensures Valid() && !finished && plan.entries == []
    {
      buffer, restarts, counter, lastKey, finished := [], [0], 0, [], false;
      plan := Plan([], [], [0]);
    }

    /** How much of the key the last key already holds. */
    method SharedLength(key: Bytes) returns (shared: nat)
      ensures shared == Common(lastKey, key)
    {
      var minLength := if |lastKey| < |key| then |lastKey| else |key|;
      shared := 0;
      while shared < minLength && lastKey[shared] == key[shared]
        invariant shared <= minLength && lastKey[..shared] == key[..shared]
      {
        shared := shared + 1;
      }
      CommonUnique(lastKey, key, shared);
    }

    method Add(key: Bytes, value: Bytes)
      requires Valid() && !finished
      modifies this
      ensures Valid() && !finished
      ensures plan == NextPlan(old(plan), old(counter) < restartInterval, Record(key, value))
      ensures counter == if old(counter) < restartInterval then old(counter) + 1 else 1
    {
      hide Holds, PlanOk, EntryBytes, BlockBytes, Common;
      ghost var r, compress := Record(key, value), counter < restartInterval;
      ghost var buffer0, restarts0, lastKey0 := buffer, restarts, lastKey;
      var shared := 0;
      if counter < restartInterval {
        shared := SharedLength(key);
      } else {
        restarts := restarts + [|buffer|];
        counter := 0;
      }
      AddHolds(plan, buffer0, restarts0, lastKey0, compress, r, shared);
      buffer := AppendEntry(buffer, shared, Record(key, value));
      lastKey := lastKey[..shared] + key[shared..];
      counter := counter + 1;
      plan := NextPlan(plan, compress, r);
    }

    method Finish() returns (block: Bytes)
      requires Valid() && !finished
      modifies this
      ensures Valid() && finished && plan == old(plan) && block == BlockBytes(plan) == buffer
    {
      buffer := AppendFixedArray(buffer, restarts);
      buffer := buffer + Fixed32(|restarts|);
      finished := true;
      block := buffer;
    }
  }
}
