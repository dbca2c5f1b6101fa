/** Filter blocks (table/filter_block.cc): one filter for each 2KB of file offsets, found again by a
    data block's offset.
  */
module FilterBlock {
  import opened Keys
  import opened Coding
  import opened Bloom
  import opened Block

  const BASE_LG: nat := 11
  const BASE: nat := 2048

  // ---------- the builder ----------

  function FlatKeys(keys: seq<Bytes>): Bytes {
    if keys == [] then [] else FlatKeys(keys[..|keys| - 1]) + keys[|keys| - 1]
  }

  /** The flattened keys and where each starts. */
  ghost predicate Flattened(pending: seq<Bytes>, keys: Bytes, start: seq<nat>) {
    keys == FlatKeys(pending) && |start| == |pending| &&
    forall i :: 0 <= i < |start| ==> start[i] == |FlatKeys(pending[..i])|
  }

  lemma {:induction false} FlatPrefix(keys: seq<Bytes>, i: nat)
    requires i <= |keys|
    ensures |FlatKeys(keys[..i])| <= |FlatKeys(keys)| && FlatKeys(keys)[..|FlatKeys(keys[..i])|] == FlatKeys(keys[..i])
    decreases |keys|
  {
    if i == |keys| {
      assert keys[..i] == keys;
    } else {
      FlatPrefix(keys[..|keys| - 1], i);
      assert keys[..|keys| - 1][..i] == keys[..i];
    }
  }

  lemma FlatSlice(keys: seq<Bytes>, i: nat)
    requires i < |keys|
    ensures |FlatKeys(keys[..i])| + |keys[i]| == |FlatKeys(keys[..i + 1])| <= |FlatKeys(keys)|
    ensures FlatKeys(keys)[|FlatKeys(keys[..i])|..|FlatKeys(keys[..i + 1])|] == keys[i]
  {
    FlatPrefix(keys, i + 1);
    assert keys[..i + 1][..i] == keys[..i];
    var a, b := |FlatKeys(keys[..i])|, |FlatKeys(keys[..i + 1])|;
    assert FlatKeys(keys)[a..b] == FlatKeys(keys)[..b][a..];
  }

  /** The filter bytes answer yes for each of `keys`; no keys have an empty filter. */
  ghost predicate FilterOk(p: Policy, keys: seq<Bytes>, filter: Bytes)
    requires PolicyOk(p)
  {
    forall k :: k in keys ==> MayMatch(p, k, filter)
  }

  ghost function Limit(offsets: seq<nat>, end: nat, i: nat): nat
    requires i < |offsets|
  {
    if i + 1 < |offsets| then offsets[i + 1] else end
  }

  /** Filter `i` lies at its offset and covers the keys filed under it. */
  ghost predicate FilterAt(p: Policy, filed: seq<seq<Bytes>>, offsets: seq<nat>, result: Bytes, i: nat)
    requires PolicyOk(p) && i < |offsets| == |filed|
  {
    offsets[i] <= Limit(offsets, |result|, i) <= |result| &&
    FilterOk(p, filed[i], result[offsets[i]..Limit(offsets, |result|, i)])
  }

  ghost predicate FiltersOk(p: Policy, filed: seq<seq<Bytes>>, offsets: seq<nat>, result: Bytes) {
    PolicyOk(p) && |offsets| == |filed| && forall i :: 0 <= i < |offsets| ==> FilterAt(p, filed, offsets, result, i)
  }

  /** Appending one more filter keeps the ones before. */
  lemma AppendFilter(p: Policy, filed: seq<seq<Bytes>>, offsets: seq<nat>, result: Bytes, keys: seq<Bytes>,
                     filter: Bytes)
    requires FiltersOk(p, filed, offsets, result) && FilterOk(p, keys, filter)
    ensures FiltersOk(p, filed + [keys], offsets + [|result|], result + filter)
  {
    var filed', offsets', result' := filed + [keys], offsets + [|result|], result + filter;
    forall i | 0 <= i < |offsets'| ensures FilterAt(p, filed', offsets', result', i) {
      if i < |offsets| {
        assert FilterAt(p, filed, offsets, result, i);
        assert Limit(offsets', |result'|, i) == Limit(offsets, |result|, i);
        assert result'[offsets[i]..Limit(offsets, |result|, i)] == result[offsets[i]..Limit(offsets, |result|, i)];
      } else {
        assert result'[|result|..|result'|] == filter;
      }
    }
  }

  /** The number of keys in all filters. */
  ghost function KeyCount(filed: seq<seq<Bytes>>): nat {
    if filed == [] then 0 else KeyCount(filed[..|filed| - 1]) + |filed[|filed| - 1]|
  }

  /** The bytes of all filters; no keys have an empty filter. */
  ghost function FilterBytes(p: Policy, filed: seq<seq<Bytes>>): nat {
    if filed == [] then 0
    else
      var n := |filed[|filed| - 1]|;
      FilterBytes(p, filed[..|filed| - 1]) + if n == 0 then 0 else FilterLength(p, n)
  }

  lemma FiledSnoc(p: Policy, filed: seq<seq<Bytes>>, keys: seq<Bytes>)
    ensures KeyCount(filed + [keys]) == KeyCount(filed) + |keys|
    ensures FilterBytes(p, filed + [keys]) == FilterBytes(p, filed) + if keys == [] then 0 else FilterLength(p, |keys|)
  {
    assert (filed + [keys])[..|filed|] == filed;
  }

  lemma FilterLengthBound(p: Policy, n: nat)
    requires n > 0
    ensures FilterLength(p, n) <= n * (p.bitsPerKey + 10)
  {
    assert n * (p.bitsPerKey + 10) == n * p.bitsPerKey + 10 * n;
  }

  /** Filters take at most the policy's bits and ten bytes for each key. */
  lemma {:induction false} FilterBytesBound(p: Policy, filed: seq<seq<Bytes>>)
    ensures FilterBytes(p, filed) <= KeyCount(filed) * (p.bitsPerKey + 10)
  {
    if filed == [] {
    } else {
      var n := |filed[|filed| - 1]|;
      FilterBytesBound(p, filed[..|filed| - 1]);
      if n > 0 { FilterLengthBound(p, n); }
      assert (KeyCount(filed) - n) * (p.bitsPerKey + 10) + n * (p.bitsPerKey + 10)
        == KeyCount(filed) * (p.bitsPerKey + 10);
    }
  }

  /** A filter in which all probes of all keys are set answers yes for each of them. */
  lemma CreatedOk(p: Policy, keys: seq<Bytes>, filter: Bytes)
    requires PolicyOk(p) && |filter| >= 2 && filter[|filter| - 1] == p.k
    requires AllHit(p, keys, |keys|, filter[..|filter| - 1])
    ensures FilterOk(p, keys, filter)
  {
    forall k | k in keys ensures MayMatch(p, k, filter) {
      var i :| 0 <= i < |keys| && keys[i] == k;
    }
  }

  class FilterBlockBuilder {
    const policy: Policy
    var keys: Bytes
    var start: seq<nat>
    var result: Bytes
    var filterOffsets: seq<nat>
    /** The keys of each generated filter, and those of the next. */
    ghost var filed: seq<seq<Bytes>>
    ghost var pending: seq<Bytes>

    ghost predicate Valid() reads this {
      Flattened(pending, keys, start) && FiltersOk(policy, filed, filterOffsets, result) &&
      |result| == FilterBytes(policy, filed)
    }

    /** The number of keys added so far. */
    ghost function Total(): nat reads this {
      KeyCount(filed) + |pending|
    }

    /** The keys that belong to filter `i`. */
    ghost function KeysAt(i: nat): seq<Bytes> reads this {
      if i < |filed| then filed[i] else if i == |filed| then pending else []
    }

    constructor (policy: Policy)
      requires PolicyOk(policy)
      ensures Valid() && this.policy == policy && filed == [] && pending == []
    {
      this.policy := policy;
      keys, start, result, filterOffsets, filed, pending := [], [], [], [], [], [];
    }

    method AddKey(key: Bytes)
      requires Valid()
      modifies this
      ensures Valid() && filed == old(filed) && pending == old(pending) + [key]
    {
      ghost var all := pending + [key];
      assert all[..|pending|] == pending;
      forall i | 0 <= i < |pending| ensures all[..i] == pending[..i] { }
      start := start + [|keys|];
      keys := keys + key;
      pending := all;
    }

    /** The keys back from their flattened form. */
    method TakeKeys() returns (tmpKeys: seq<Bytes>)
      requires Valid()
      ensures tmpKeys == pending
    {
      var bounds := start + [|keys|];
      tmpKeys := [];
      for i := 0 to |start|
        invariant tmpKeys == pending[..i]
      {
        FlatSlice(pending, i);
        assert pending[..|pending|] == pending;
        assert bounds[i + 1] == |FlatKeys(pending[..i + 1])|;
        tmpKeys := tmpKeys + [keys[bounds[i]..bounds[i + 1]]];
      }
    }

    /** The pending keys' filter becomes the next one. */
    method PushFilter(made: Bytes)
      requires Valid() && |made| >= |result| && made[..|result|] == result
      requires FilterOk(policy, pending, made[|result|..])
      requires |made| == |result| + if pending == [] then 0 else FilterLength(policy, |pending|)
      modifies this
      ensures Valid() && filed == old(filed) + [old(pending)] && pending == [] && Total() == old(Total())
      ensures forall i: nat :: KeysAt(i) == old(KeysAt(i))
    {
      assert Flattened([], [], []);
      hide FiltersOk, FilterOk, PolicyOk, KeyCount, FilterBytes, FilterLength, Flattened;
      assert made == result + made[|result|..];
      AppendFilter(policy, filed, filterOffsets, result, pending, made[|result|..]);
      FiledSnoc(policy, filed, pending);
      filterOffsets := filterOffsets + [|result|];
      result := made;
      filed, pending := filed + [pending], [];
      keys, start := [], [];
    }

    method GenerateFilter()
      requires Valid()
      modifies this
      ensures Valid() && filed == old(filed) + [old(pending)] && pending == [] && Total() == old(Total())
      ensures forall i: nat :: KeysAt(i) == old(KeysAt(i))
    {
      assert PolicyOk(policy) && (start == [] ==> pending == [] && FilterOk(policy, pending, []));
      hide FiltersOk, FilterOk, PolicyOk, AllHit, FilterLength, KeysAt, Total;
      if start == [] {
        assert result[|result|..] == [];
        PushFilter(result);
        return;
      }
      var tmpKeys := TakeKeys();
      var made := CreateFilter(policy, tmpKeys, result);
      CreatedOk(policy, pending, made[|result|..]);
      PushFilter(made);
    }

    /** A data block starts at `blockOffset`: later keys belong to the filter of that offset, and
        earlier keys stay with theirs. */
    method StartBlock(blockOffset: nat)
      requires Valid() && |filed| <= blockOffset / BASE
      modifies this
      ensures Valid() && |filed| == blockOffset / BASE && Total() == old(Total())
      ensures forall i: nat :: KeysAt(i) == old(KeysAt(i))
    {
      var index := blockOffset / BASE;
      while index > |filterOffsets|
        invariant Valid() && old(|filed|) <= |filed| <= index && Total() == old(Total())
        invariant forall i: nat :: KeysAt(i) == old(KeysAt(i))
        decreases index - |filed|
      {
        GenerateFilter();
      }
    }

    method Finish() returns (block: Bytes)
      requires Valid()
      modifies this
      ensures |block| >= 5 + 4 * |filterOffsets|
      ensures FiltersOk(policy, filed, filterOffsets, block[..|block| - 5 - 4 * |filterOffsets|])
      ensures block == Finished(block[..|block| - 5 - 4 * |filterOffsets|], filterOffsets)
      ensures forall i: nat, k :: k in old(KeysAt(i)) ==> i < |filed| && k in filed[i]
      ensures |block| <= old(Total()) * (policy.bitsPerKey + 10) + 4 * (old(|filed|) + 1) + 5
    {
      if start != [] {
        GenerateFilter();
      }
      FilterBytesBound(policy, filed);
      assert KeyCount(filed) <= old(Total());
      MoreKeys(KeyCount(filed), old(Total()), policy.bitsPerKey + 10);
      var arrayOffset := |result|;
      block := AppendFixedArray(result, filterOffsets);
      block := block + Fixed32(arrayOffset);
      block := block + [BASE_LG];
      assert block[..|block| - 5 - 4 * |filterOffsets|] == result;
      assert block == Finished(result, filterOffsets);
    }
  }

  lemma MoreKeys(n: nat, m: nat, bytes: nat)
    requires n <= m
    ensures n * bytes <= m * bytes
  {
  }

  /** The format: the filters, their offsets, where the offsets start, the base. */
  function Finished(filters: Bytes, offsets: seq<nat>): Bytes {
    filters + FixedArray(offsets) + Fixed32(|filters|) + [BASE_LG]
  }

  // ---------- the reader ----------

  datatype FilterReader = FilterReader(data: Bytes, arrayOffset: nat, num: nat, baseLg: nat)

  function OpenFilter(contents: Bytes): FilterReader {
    var n := |contents|;
    if n < 5 then FilterReader([], 0, 0, 0)
    else
      var lastWord := FixedValue(contents[n - 5..n - 1]);
      if lastWord > n - 5 then FilterReader([], 0, 0, contents[n - 1])
      else FilterReader(contents, lastWord, (n - 5 - lastWord) / 4, contents[n - 1])
  }

  function ShiftRight(x: nat, n: nat): nat
    decreases n
  {
    if n == 0 then x else ShiftRight(x / 2, n - 1)
  }

  method FilterMayMatch(r: FilterReader, p: Policy, blockOffset: nat, key: Bytes) returns (may: bool)
    requires PolicyOk(p) && (r.num > 0 ==> r.arrayOffset + 4 * r.num + 4 <= |r.data|)
    ensures var index := ShiftRight(blockOffset, r.baseLg);
      may <==> (index < r.num ==> EntryMayMatch(r, p, index, key))
  {
    var index := ShiftRight(blockOffset, r.baseLg);
    if index < r.num {
      var start := FixedValue(r.data[r.arrayOffset + 4 * index..r.arrayOffset + 4 * index + 4]);
      var limit := FixedValue(r.data[r.arrayOffset + 4 * index + 4..r.arrayOffset + 4 * index + 8]);
      if start <= limit && limit <= r.arrayOffset {
        may := KeyMayMatch(p, key, r.data[start..limit]);
        return;
      } else if start == limit {
        return false;
      }
    }
    may := true;
  }

  ghost predicate EntryMayMatch(r: FilterReader, p: Policy, index: nat, key: Bytes)
    requires PolicyOk(p) && index < r.num && r.arrayOffset + 4 * r.num + 4 <= |r.data|
  {
    var start := FixedValue(r.data[r.arrayOffset + 4 * index..r.arrayOffset + 4 * index + 4]);
    var limit := FixedValue(r.data[r.arrayOffset + 4 * index + 4..r.arrayOffset + 4 * index + 8]);
    if start <= limit && limit <= r.arrayOffset then MayMatch(p, key, r.data[start..limit])
    else start != limit
  }

  // ---------- no false negatives ----------

  lemma ShiftIsBase(x: nat, n: nat)
    requires n == BASE_LG
    ensures ShiftRight(x, n) == x / BASE
  {
    Shift4(x, n); Shift4(x / 16, n - 4); Shift3(x / 256, n - 8);
  }

  lemma Shift4(x: nat, n: nat)
    requires n >= 4
    ensures ShiftRight(x, n) == ShiftRight(x / 16, n - 4)
  {
    Shift2(x, n); Shift2(x / 4, n - 2);
  }

  lemma Shift2(x: nat, n: nat)
    requires n >= 2
    ensures ShiftRight(x, n) == ShiftRight(x / 4, n - 2)
  {
    assert ShiftRight(x, n) == ShiftRight(x / 2, n - 1) == ShiftRight(x / 2 / 2, n - 2);
    assert x / 2 / 2 == x / 4;
  }

  lemma Shift3(x: nat, n: nat)
    requires n == 3
    ensures ShiftRight(x, n) == x / 8
  {
    Shift2(x, n);
    assert ShiftRight(x / 4, n - 2) == ShiftRight(x / 4 / 2, n - 3);
    assert x / 4 / 2 == x / 8;
  }

  /** Reading a finished filter block gives back its layout. */
  lemma OpenFinished(filters: Bytes, offsets: seq<nat>)
    requires |filters| < TWO32
    ensures OpenFilter(Finished(filters, offsets)) ==
            FilterReader(Finished(filters, offsets), |filters|, |offsets|, BASE_LG)
    ensures |Finished(filters, offsets)| == |filters| + 4 * |offsets| + 5
  {
    var c := Finished(filters, offsets);
    var n := |c|;
    assert c[n - 5..n - 1] == Fixed32(|filters|);
    Fixed32RoundTrip(|filters|);
  }

  /** The word at `i` is offset `i`; the word after the last is the end of the filters. */
  lemma OffsetWords(filters: Bytes, offsets: seq<nat>, i: nat)
    requires |filters| < TWO32 && i < |offsets| && forall j :: 0 <= j < |offsets| ==> offsets[j] <= |filters|
    ensures var c := Finished(filters, offsets); var a := |filters|;
      a + 4 * i + 8 <= |c| && FixedValue(c[a + 4 * i..a + 4 * i + 4]) == offsets[i] &&
      FixedValue(c[a + 4 * i + 4..a + 4 * i + 8]) == Limit(offsets, |filters|, i)
  {
    var c, a, n := Finished(filters, offsets), |filters|, |offsets|;
    assert c[a..a + 4 * n] == FixedArray(offsets);
    FixedWord(c, a, offsets, i, a + 4 * i);
    Fixed32RoundTrip(offsets[i]);
    if i + 1 < n {
      FixedWord(c, a, offsets, i + 1, a + 4 * i + 4);
      Fixed32RoundTrip(offsets[i + 1]);
    } else {
      assert c[a + 4 * n..a + 4 * n + 4] == Fixed32(a);
      Fixed32RoundTrip(a);
    }
  }

  lemma FixedWord(c: Bytes, a: nat, offsets: seq<nat>, i: nat, lo: nat)
    requires a + 4 * |offsets| <= |c| && c[a..a + 4 * |offsets|] == FixedArray(offsets)
    requires i < |offsets| && lo == a + 4 * i
    ensures c[lo..lo + 4] == Fixed32(offsets[i])
  {
    FixedArrayAt(offsets, i);
    PartOf(c, a, FixedArray(offsets), 4 * i, lo);
  }

  lemma FinishedSlice(filters: Bytes, offsets: seq<nat>, a: nat, b: nat)
    requires a <= b <= |filters|
    ensures |filters| <= |Finished(filters, offsets)| && Finished(filters, offsets)[a..b] == filters[a..b]
  {
  }

  /** A key filed under a block's offset is never denied for that block. */
  lemma FiledKeyMatches(p: Policy, filed: seq<seq<Bytes>>, filters: Bytes, offsets: seq<nat>, blockOffset: nat,
                        key: Bytes)
    requires FiltersOk(p, filed, offsets, filters) && |filters| < TWO32
    requires blockOffset / BASE < |filed| && key in filed[blockOffset / BASE]
    ensures var r := OpenFilter(Finished(filters, offsets)); var index := ShiftRight(blockOffset, r.baseLg);
      r.arrayOffset + 4 * r.num + 4 <= |r.data| && index < r.num && EntryMayMatch(r, p, index, key)
  {
    hide FixedArray, Fixed32, Finished, OpenFilter;
    OpenFinished(filters, offsets);
    ShiftIsBase(blockOffset, BASE_LG);
    var i := blockOffset / BASE;
    assert FilterAt(p, filed, offsets, filters, i);
    forall j | 0 <= j < |offsets| ensures offsets[j] <= |filters| {
      assert FilterAt(p, filed, offsets, filters, j);
    }
    OffsetWords(filters, offsets, i);
    FinishedSlice(filters, offsets, offsets[i], Limit(offsets, |filters|, i));
  }
}
