/** The Bloom filter policy (util/bloom.cc). */
module Bloom {
  import opened Keys
  import opened Coding

  /** Bit `i` of a number. */
  predicate HasBit(b: nat, i: nat)
    decreases i
  {
    if i == 0 then b % 2 == 1 else HasBit(b / 2, i - 1)
  }

  /** `b | (1 << i)`. */
  function WithBit(b: nat, i: nat): nat
    decreases i
  {
    if i == 0 then b / 2 * 2 + 1 else 2 * WithBit(b / 2, i - 1) + b % 2
  }

  lemma {:induction false} WithBitOk(b: nat, i: nat, j: nat)
    ensures HasBit(WithBit(b, i), j) <==> j == i || HasBit(b, j)
    decreases i
  {
    var r := WithBit(b, i);
    if i == 0 {
      assert r / 2 == b / 2;
    } else {
      assert r / 2 == WithBit(b / 2, i - 1) && r % 2 == b % 2;
      if j > 0 {
        WithBitOk(b / 2, i - 1, j - 1);
      }
    }
  }

  lemma {:induction false} NoBits(i: nat)
    ensures !HasBit(0, i)
  {
    if i == 0 {
    } else {
      NoBits(i - 1);
    }
  }

  lemma {:induction false} WithBitBound(b: nat, i: nat, n: nat)
    requires i < n && b < Pow(2, n)
    ensures WithBit(b, i) < Pow(2, n)
    decreases i
  {
    var half := Pow(2, n - 1);
    assert Pow(2, n) == 2 * half;
    if i == 0 {
      assert b / 2 < half;
    } else {
      WithBitBound(b / 2, i - 1, n - 1);
      assert WithBit(b / 2, i - 1) < half;
    }
  }

  function SetBit(byte: Byte, i: nat): (r: Byte)
    requires i < 8
    ensures r == WithBit(byte, i)
  {
    var n: nat := 8;
    assert Pow(2, n) == 256;
    WithBitBound(byte, i, n);
    WithBit(byte, i)
  }

  // ---------- probes ----------

  /** Rotate right by 17 bits. */
  function Delta(h: nat): (d: nat)
    requires h < TWO32
    ensures d < TWO32
  {
    h / 0x20000 + h % 0x20000 * 0x8000
  }

  /** Rotated: the low 17 bits become the high ones. */
  lemma DeltaRotates(h: nat)
    requires h < TWO32
    ensures Delta(h) % 0x8000 == h / 0x20000 && Delta(h) / 0x8000 == h % 0x20000
  {
    JoinedParts(h / 0x20000, h % 0x20000);
  }

  lemma JoinedParts(low: nat, high: nat)
    requires low < 0x8000
    ensures (low + high * 0x8000) % 0x8000 == low && (low + high * 0x8000) / 0x8000 == high
  {
  }

  /** The hash used for probe `j`. */
  function Probe(h: nat, j: nat): (p: nat)
    requires h < TWO32
    ensures p < TWO32
  {
    if j == 0 then h else (Probe(h, j - 1) + Delta(h)) % TWO32
  }

  /** Double hashing: the probes step by one fixed distance. */
  lemma {:induction false} ProbesStep(h: nat, j: nat)
    requires h < TWO32
    ensures Probe(h, j) == (h + j * Delta(h)) % TWO32
  {
    hide Delta;
    if j == 0 {
    } else {
      var d := Delta(h);
      ProbesStep(h, j - 1);
      OneMore(j, d);
      ModStep(h + (j - 1) * d, d);
    }
  }

  lemma OneMore(j: nat, d: nat)
    requires j > 0
    ensures j * d == (j - 1) * d + d
  {
  }

  lemma ModStep(a: nat, d: nat)
    ensures (a % TWO32 + d) % TWO32 == (a + d) % TWO32
  {
  }

  predicate BitAt(bitmap: Bytes, pos: nat)
    requires pos < 8 * |bitmap|
  {
    HasBit(bitmap[pos / 8], pos % 8)
  }

  /** The first `n` probes of a hash all hit set bits. */
  ghost predicate Hits(bitmap: Bytes, h: nat, n: nat)
    requires h < TWO32 && |bitmap| > 0
  {
    forall j: nat :: j < n ==> BitAt(bitmap, Probe(h, j) % (8 * |bitmap|))
  }

  /** Every bit of `a` is set in `b`. */
  ghost predicate Covers(b: Bytes, a: Bytes) {
    |a| == |b| && forall pos: nat :: pos < 8 * |a| && BitAt(a, pos) ==> BitAt(b, pos)
  }

  lemma HitsKept(a: Bytes, b: Bytes, h: nat, n: nat)
    requires h < TWO32 && |a| > 0 && Hits(a, h, n) && Covers(b, a)
    ensures Hits(b, h, n)
  {
  }

  lemma SetOneBit(a: Bytes, pos: nat)
    requires pos < 8 * |a|
    ensures var b := a[pos / 8 := SetBit(a[pos / 8], pos % 8)];
      Covers(b, a) && BitAt(b, pos) && forall q: nat :: q < 8 * |a| && BitAt(b, q) ==> q == pos || BitAt(a, q)
  {
    var b := a[pos / 8 := SetBit(a[pos / 8], pos % 8)];
    WithBitOk(a[pos / 8], pos % 8, pos % 8);
    forall q: nat | q < 8 * |a| ensures BitAt(b, q) <==> q == pos || BitAt(a, q) {
      if q / 8 == pos / 8 {
        WithBitOk(a[pos / 8], pos % 8, q % 8);
      }
    }
  }

  /** One of the first `n` probes of a hash goes to bit `pos`. */
  ghost predicate ProbedBy(h: nat, n: nat, bits: nat, pos: nat)
    requires h < TWO32 && bits > 0
  {
    exists j: nat :: j < n && Probe(h, j) % bits == pos
  }

  lemma ProbedNext(h: nat, n: nat, bits: nat)
    requires h < TWO32 && bits > 0
    ensures ProbedBy(h, n + 1, bits, Probe(h, n) % bits)
    ensures forall pos: nat :: ProbedBy(h, n, bits, pos) ==> ProbedBy(h, n + 1, bits, pos)
  {
  }

  // ---------- the policy ----------

  datatype Policy = Policy(bitsPerKey: nat, k: nat, hash: Bytes -> nat)

  ghost predicate PolicyOk(p: Policy) {
    1 <= p.k <= 30 && forall s :: p.hash(s) < TWO32
  }

  /** Probes for one key: the key's bits are set, no bit is cleared. */
  method AddKey(bitmap: Bytes, h: nat, k: nat) returns (r: Bytes)
    requires h < TWO32 && |bitmap| > 0
    ensures Covers(r, bitmap) && Hits(r, h, k)
    ensures forall pos: nat :: pos < 8 * |r| && BitAt(r, pos) ==> BitAt(bitmap, pos) || ProbedBy(h, k, 8 * |r|, pos)
  {
    hide ProbedBy, Delta, SetBit;
    r := bitmap;
    var probe, delta, bits := h, Delta(h), 8 * |bitmap|;
    for j := 0 to k
      invariant Covers(r, bitmap) && Hits(r, h, j) && probe == Probe(h, j)
      invariant forall pos: nat :: pos < bits && BitAt(r, pos) ==> BitAt(bitmap, pos) || ProbedBy(h, j, bits, pos)
    {
      var bitpos := probe % bits;
      ghost var before := r;
      ProbedNext(h, j, bits);
      SetOneBit(r, bitpos);
      r := r[bitpos / 8 := SetBit(r[bitpos / 8], bitpos % 8)];
      HitsKept(before, r, h, j);
      probe := (probe + delta) % TWO32;
    }
  }

  ghost predicate AllHit(p: Policy, keys: seq<Bytes>, n: nat, bitmap: Bytes)
    requires PolicyOk(p) && n <= |keys| && |bitmap| > 0
  {
    forall i :: 0 <= i < n ==> Hits(bitmap, p.hash(keys[i]), p.k)
  }

  /** Only bits that some key probes are set. */
  ghost predicate OnlyProbed(p: Policy, keys: seq<Bytes>, n: nat, bitmap: Bytes)
    requires PolicyOk(p) && n <= |keys| && |bitmap| > 0
  {
    forall pos: nat :: pos < 8 * |bitmap| && BitAt(bitmap, pos) ==>
      exists i :: 0 <= i < n && ProbedBy(p.hash(keys[i]), p.k, 8 * |bitmap|, pos)
  }

  /** The bytes of a filter for `n` keys: the fewest that hold at least 64 bits and `bitsPerKey` bits
      for each key, and one more for the number of probes. */
  function FilterLength(p: Policy, n: nat): (r: nat)
    ensures 8 * (r - 1) >= 64 && 8 * (r - 1) >= n * p.bitsPerKey
    ensures forall bytes: nat :: 8 * bytes >= 64 && 8 * bytes >= n * p.bitsPerKey ==> r <= bytes + 1
  {
    var bits := if n * p.bitsPerKey < 64 then 64 else n * p.bitsPerKey;
    (bits + 7) / 8 + 1
  }

  /** Appends the filter for `keys` to `dst`. */
  method CreateFilter(p: Policy, keys: seq<Bytes>, dst: Bytes) returns (r: Bytes)
    requires PolicyOk(p)
    ensures |r| == |dst| + FilterLength(p, |keys|) && r[..|dst|] == dst
    ensures var filter := r[|dst|..]; filter[|filter| - 1] == p.k && AllHit(p, keys, |keys|, filter[..|filter| - 1])
    ensures var filter := r[|dst|..]; OnlyProbed(p, keys, |keys|, filter[..|filter| - 1])
  {
    var bits := |keys| * p.bitsPerKey;
    if bits < 64 { bits := 64; }
    var bytes := (bits + 7) / 8;
    var bitmap: Bytes := seq(bytes, i => 0);
    forall pos: nat | pos < 8 * bytes ensures !BitAt(bitmap, pos) {
      NoBits(pos % 8);
    }
    for i := 0 to |keys|
      invariant |bitmap| == bytes && AllHit(p, keys, i, bitmap) && OnlyProbed(p, keys, i, bitmap)
    {
      ghost var before := bitmap;
      bitmap := AddKey(bitmap, p.hash(keys[i]), p.k);
      forall j | 0 <= j < i ensures Hits(bitmap, p.hash(keys[j]), p.k) {
        HitsKept(before, bitmap, p.hash(keys[j]), p.k);
      }
    }
    r := dst + bitmap + [p.k];
    assert r[|dst|..] == bitmap + [p.k];
    assert (bitmap + [p.k])[..bytes] == bitmap;
  }

  /** What KeyMayMatch answers. */
  ghost predicate MayMatch(p: Policy, key: Bytes, filter: Bytes)
    requires PolicyOk(p)
  {
    |filter| >= 2 && (filter[|filter| - 1] > 30 || Hits(filter[..|filter| - 1], p.hash(key), filter[|filter| - 1]))
  }

  method KeyMayMatch(p: Policy, key: Bytes, filter: Bytes) returns (may: bool)
    requires PolicyOk(p)
    ensures may <==> MayMatch(p, key, filter)
  {
    hide Delta, SetBit;
    var len := |filter|;
    if len < 2 { return false; }
    var bitmap := filter[..len - 1];
    var bits := (len - 1) * 8;
    var k := filter[len - 1];
    if k > 30 { return true; }
    var h := p.hash(key);
    var probe, delta := h, Delta(h);
    for j := 0 to k
      invariant probe == Probe(h, j) && Hits(bitmap, h, j)
    {
      var bitpos := probe % bits;
      if !HasBit(bitmap[bitpos / 8], bitpos % 8) {
        assert !BitAt(bitmap, Probe(h, j) % bits);
        return false;
      }
      probe := (probe + delta) % TWO32;
    }
    may := true;
  }

  /** A filter never denies a key it was built from. */
  method NoFalseNegative(p: Policy, keys: seq<Bytes>, i: nat) returns (may: bool)
    requires PolicyOk(p) && i < |keys|
    ensures may
  {
    var filter := CreateFilter(p, keys, []);
    assert filter[0..] == filter;
    may := KeyMayMatch(p, keys[i], filter);
  }
}
