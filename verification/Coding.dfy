/** Integers and slices as bytes (util/coding.cc) and the checksum mask (util/crc32c.h). */
module Coding {
  import opened Keys

  const TWO32: nat := 0x1_0000_0000
  const TWO64: nat := 0x1_0000_0000_0000_0000

  /** A parsed value and the input left after it. */
  datatype Parsed<+T> = Fail | Ok(value: T, rest: Bytes)

  lemma SliceOfSlice(data: Bytes, base: nat, end: nat, i: nat, j: nat)
    requires base <= end <= |data| && i <= j <= end - base
    ensures data[base..end][i..j] == data[base + i..base + j]
  {
    assert |data[base..end][i..j]| == |data[base + i..base + j]|;
    assert forall k :: 0 <= k < j - i ==>
      data[base..end][i..j][k] == data[base..end][i + k] == data[base + i..base + j][k];
  }

  lemma PartOf(data: Bytes, base: nat, part: Bytes, i: nat, lo: nat)
    requires base + |part| <= |data| && data[base..base + |part|] == part && i + 4 <= |part| && lo == base + i
    ensures data[lo..lo + 4] == part[i..i + 4]
  {
    SliceOfSlice(data, base, base + |part|, i, i + 4);
  }

  // ---------- fixed width ----------

  function Fixed(v: nat, width: nat): (b: Bytes)
    ensures |b| == width
  {
    seq(width, i requires 0 <= i < width => ByteOf(v, i))
  }

  /** Byte `i` of `v`, least significant first. */
  function ByteOf(v: nat, i: nat): Byte
    decreases i
  {
    if i == 0 then v % 256 else ByteOf(v / 256, i - 1)
  }

  function FixedValue(b: Bytes): nat {
    if b == [] then 0 else b[0] + 256 * FixedValue(b[1..])
  }

  function Pow(base: nat, n: nat): nat {
    if n == 0 then 1 else base * Pow(base, n - 1)
  }

  lemma {:induction false} FixedRoundTrip(v: nat, width: nat)
    requires v < Pow(256, width)
    ensures FixedValue(Fixed(v, width)) == v
    decreases width
  {
    if width == 0 {
    } else {
      FixedRoundTrip(v / 256, width - 1);
      assert Fixed(v, width)[1..] == Fixed(v / 256, width - 1);
    }
  }

  function Fixed32(v: nat): (b: Bytes)
    ensures |b| == 4
  {
    Fixed(v, 4)
  }

  function Fixed64(v: nat): (b: Bytes)
    ensures |b| == 8
  {
    Fixed(v, 8)
  }

  lemma Fixed32RoundTrip(v: nat)
    requires v < TWO32
    ensures FixedValue(Fixed32(v)) == v
  {
    Pow256(4);
    FixedRoundTrip(v, 4);
  }

  lemma Fixed64RoundTrip(v: nat)
    requires v < TWO64
    ensures FixedValue(Fixed64(v)) == v
  {
    Pow256(8);
    FixedRoundTrip(v, 8);
  }

  lemma Pow256(n: nat)
    ensures n == 4 ==> Pow(256, n) == TWO32
    ensures n == 8 ==> Pow(256, n) == TWO64
  {
  }

  // ---------- variable width ----------

  function PutVarint(v: nat): (b: Bytes)
    ensures |b| >= 1
  {
    if v < 128 then [v] else [v % 128 + 128] + PutVarint(v / 128)
  }

  /** Reads at most `limit` groups of seven bits. */
  function Varint(input: Bytes, limit: nat): (r: Parsed<nat>)
    ensures r.Ok? ==> |r.rest| < |input| && input[|input| - |r.rest|..] == r.rest
    decreases |input|
  {
    if limit == 0 || input == [] then Fail
    else if input[0] < 128 then Ok(input[0], input[1..])
    else
      match Varint(input[1..], limit - 1)
      case Fail => Fail
      case Ok(v, rest) =>
        assert input == [input[0]] + input[1..];
        Ok(input[0] - 128 + 128 * v, rest)
  }

  /** Reads up to `limit` groups into an integer type of `size` values. */
  function ReadVarint(input: Bytes, limit: nat, size: nat): (r: Parsed<nat>)
    requires size > 0
    ensures r.Ok? ==> r.value < size && |r.rest| < |input|
  {
    match Varint(input, limit)
    case Fail => Fail
    case Ok(v, rest) => Ok(v % size, rest)
  }

  function GetVarint32(input: Bytes): (r: Parsed<nat>)
    ensures r.Ok? ==> r.value < TWO32 && |r.rest| < |input|
  {
    ReadVarint(input, 5, TWO32)
  }

  function GetVarint64(input: Bytes): (r: Parsed<nat>)
    ensures r.Ok? ==> r.value < TWO64 && |r.rest| < |input|
  {
    ReadVarint(input, 10, TWO64)
  }

  /** The first byte without a continuation bit is byte `i`, within the first `limit`. */
  predicate EndsAt(input: Bytes, limit: nat, i: nat) {
    i < limit && i < |input| && input[i] < 128 && forall j :: 0 <= j < i ==> input[j] >= 128
  }

  lemma EndsNext(input: Bytes, limit: nat, i: nat)
    requires input != [] && limit > 0 && input[0] >= 128
    ensures EndsAt(input, limit, i + 1) <==> EndsAt(input[1..], limit - 1, i)
  {
    var tail := input[1..];
    if EndsAt(tail, limit - 1, i) {
      assert forall j :: 0 < j < i + 1 ==> input[j] == tail[j - 1];
    }
    if EndsAt(input, limit, i + 1) {
      assert forall j :: 0 <= j < i ==> tail[j] == input[j + 1];
    }
  }

  lemma {:induction false} VarintEnds(input: Bytes, limit: nat)
    ensures Varint(input, limit).Ok? <==> exists i :: EndsAt(input, limit, i)
    ensures forall i: nat :: EndsAt(input, limit, i) ==>
      Varint(input, limit).Ok? && Varint(input, limit).rest == input[i + 1..]
    decreases limit
  {
    if limit == 0 || input == [] {
    } else if input[0] < 128 {
      assert EndsAt(input, limit, 0);
    } else {
      var tail, left := input[1..], limit - 1;
      VarintEnds(tail, left);
      if Varint(tail, left).Ok? {
        var i: nat :| EndsAt(tail, left, i);
        EndsNext(input, limit, i);
      }
      forall i: nat | EndsAt(input, limit, i)
        ensures Varint(input, limit).Ok? && Varint(input, limit).rest == input[i + 1..]
      {
        EndsNext(input, limit, i - 1);
        assert tail[i..] == input[i + 1..];
      }
    }
  }

  /** Decoding takes at most five or ten bytes and succeeds exactly if one of them ends the varint. */
  lemma VarintLimits(input: Bytes)
    ensures GetVarint32(input).Ok? <==> exists i :: EndsAt(input, 5, i)
    ensures GetVarint64(input).Ok? <==> exists i :: EndsAt(input, 10, i)
    ensures forall i: nat :: EndsAt(input, 5, i) ==>
      GetVarint32(input).Ok? && GetVarint32(input).rest == input[i + 1..]
    ensures forall i: nat :: EndsAt(input, 10, i) ==>
      GetVarint64(input).Ok? && GetVarint64(input).rest == input[i + 1..]
  {
    VarintEnds(input, 5);
    VarintEnds(input, 10);
  }

  lemma {:induction false} VarintRoundTrip(v: nat, rest: Bytes, limit: nat)
    requires limit > 0 && v < Pow(128, limit)
    ensures Varint(PutVarint(v) + rest, limit) == Ok(v, rest)
    decreases limit
  {
    if v < 128 {
      assert (PutVarint(v) + rest)[1..] == rest;
    } else {
      assert (PutVarint(v) + rest)[1..] == PutVarint(v / 128) + rest;
      assert limit > 1;
      VarintRoundTrip(v / 128, rest, limit - 1);
    }
  }

  lemma Pow128(n: nat)
    ensures n == 5 ==> Pow(128, n) >= TWO32
    ensures n == 10 ==> Pow(128, n) >= TWO64
  {
  }

  lemma ReadVarintRoundTrip(v: nat, rest: Bytes, limit: nat, size: nat)
    requires v < size && limit > 0 && Pow(128, limit) >= size
    ensures ReadVarint(PutVarint(v) + rest, limit, size) == Ok(v, rest)
  {
    VarintRoundTrip(v, rest, limit);
    Small(v, size);
  }

  lemma Small(v: nat, size: nat)
    requires v < size
    ensures v % size == v
  {
  }

  lemma Varint32RoundTrip(v: nat, rest: Bytes)
    requires v < TWO32
    ensures GetVarint32(PutVarint(v) + rest) == Ok(v, rest)
  {
    Pow128(5);
    ReadVarintRoundTrip(v, rest, 5, TWO32);
  }

  lemma Varint64RoundTrip(v: nat, rest: Bytes)
    requires v < TWO64
    ensures GetVarint64(PutVarint(v) + rest) == Ok(v, rest)
  {
    Pow128(10);
    ReadVarintRoundTrip(v, rest, 10, TWO64);
  }

  /** A proper prefix of an encoding is never mistaken for a whole one. */
  lemma {:induction false} VarintCut(v: nat, n: nat, limit: nat)
    requires n < |PutVarint(v)|
    ensures Varint(PutVarint(v)[..n], limit) == Fail
    decreases limit
  {
    if limit > 0 && n > 0 {
      assert PutVarint(v)[..n][1..] == PutVarint(v / 128)[..n - 1];
      VarintCut(v / 128, n - 1, limit - 1);
    }
  }

  method EncodeVarint32(v: nat) returns (b: Bytes)
    requires v < TWO32
    ensures b == PutVarint(v)
  {
    if v < 0x80 {
      b := [v];
    } else if v < 0x4000 {
      b := [v % 128 + 128, v / 0x80];
    } else if v < 0x20_0000 {
      b := [v % 128 + 128, v / 0x80 % 128 + 128, v / 0x4000];
    } else if v < 0x1000_0000 {
      b := [v % 128 + 128, v / 0x80 % 128 + 128, v / 0x4000 % 128 + 128, v / 0x20_0000];
    } else {
      b := [v % 128 + 128, v / 0x80 % 128 + 128, v / 0x4000 % 128 + 128, v / 0x20_0000 % 128 + 128, v / 0x1000_0000];
    }
    VarintDigits(v);
  }

  lemma VarintDigits(v: nat)
    ensures v >= 0x80 ==> PutVarint(v) == [v % 128 + 128] + PutVarint(v / 0x80)
    ensures v >= 0x4000 ==> PutVarint(v / 0x80) == [v / 0x80 % 128 + 128] + PutVarint(v / 0x4000)
    ensures v >= 0x20_0000 ==> PutVarint(v / 0x4000) == [v / 0x4000 % 128 + 128] + PutVarint(v / 0x20_0000)
    ensures v >= 0x1000_0000 ==> PutVarint(v / 0x20_0000) == [v / 0x20_0000 % 128 + 128] + PutVarint(v / 0x1000_0000)
  {
    Digit(v, v / 0x80);
    Digit(v / 0x80, v / 0x4000);
    Digit(v / 0x4000, v / 0x20_0000);
    Digit(v / 0x20_0000, v / 0x1000_0000);
  }

  lemma Digit(v: nat, next: nat)
    requires next == v / 128
    ensures v >= 128 ==> PutVarint(v) == [v % 128 + 128] + PutVarint(next)
  {
  }

  method EncodeVarint64(v: nat) returns (b: Bytes)
    ensures b == PutVarint(v)
  {
    b := [];
    var left := v;
    while left >= 128
      invariant b + PutVarint(left) == PutVarint(v)
    {
      b := b + [left % 128 + 128];
      left := left / 128;
    }
    b := b + [left];
  }

  method VarintLength(v: nat) returns (n: nat)
    ensures n == |PutVarint(v)|
  {
    n := 1;
    var left := v;
    while left >= 128
      invariant n - 1 + |PutVarint(left)| == |PutVarint(v)|
    {
      left := left / 128;
      n := n + 1;
    }
  }

  /** What is decoded once groups worth `sum` are read and the next group counts `weight`. */
  ghost function Onward(input: Bytes, limit: nat, sum: nat, weight: nat): Parsed<nat> {
    match Varint(input, limit)
    case Fail => Fail
    case Ok(v, rest) => Ok(sum + Scaled(weight, v), rest)
  }

  /** The value in a word of the given size. */
  function Truncate(v: nat, size: nat): nat
    requires size > 0
  {
    v % size
  }

  lemma TruncateAdd(a: nat, b: nat, size: nat)
    requires size > 0
    ensures Truncate(Truncate(a, size) + b, size) == Truncate(a + b, size)
  {
    ModAdd(a, b, size);
  }

  ghost function Truncated(r: Parsed<nat>, size: nat): Parsed<nat>
    requires size > 0
  {
    match r case Fail => Fail case Ok(v, rest) => Ok(Truncate(v, size), rest)
  }

  lemma OnwardStart(input: Bytes, limit: nat, size: nat)
    requires size > 0
    ensures ReadVarint(input, limit, size) == Truncated(Onward(input, limit, 0, 1), size)
  {
  }

  lemma TruncatedResult(v: nat, rest: Bytes, size: nat)
    requires size > 0
    ensures Truncated(Ok(v, rest), size) == Ok(Truncate(v, size), rest)
    ensures Truncated(Fail, size) == Fail && Truncate(0, size) == 0
  {
  }

  lemma OnwardLast(input: Bytes, limit: nat, sum: nat, weight: nat)
    requires limit > 0 && input != [] && input[0] < 128
    ensures Onward(input, limit, sum, weight) == Ok(sum + Scaled(weight, input[0] % 128), input[1..])
  {
  }

  lemma OnwardEnd(input: Bytes, limit: nat, sum: nat, weight: nat)
    requires limit == 0 || input == []
    ensures Onward(input, limit, sum, weight) == Fail
  {
  }

  lemma OnwardStep(input: Bytes, limit: nat, sum: nat, weight: nat)
    requires limit > 0 && input != [] && input[0] >= 128
    ensures Onward(input, limit, sum, weight)
      == Onward(input[1..], limit - 1, sum + Scaled(weight, input[0] % 128), 128 * weight)
  {
    var tail := Varint(input[1..], limit - 1);
    if tail.Ok? {
      Distribute(weight, input[0] - 128, tail.value);
    }
  }

  lemma Distribute(weight: nat, low: nat, high: nat)
    ensures weight * (low + 128 * high) == weight * low + 128 * weight * high
  {
  }

  /** The shift-and-or decoding loop; `size` is two to the power of the integer width. */
  method DecodeVarint(input: Bytes, limit: nat, size: nat) returns (r: Parsed<nat>)
    requires size > 0
    ensures r == ReadVarint(input, limit, size)
  {
    var result: nat, weight: nat, p: nat := 0, 1, 0;
    ghost var sum: nat, left := 0, input;
    OnwardStart(input, limit, size);
    TruncatedResult(0, [], size);
    hide Onward, ReadVarint, Scaled, Truncate, Truncated;
    while p < limit && p < |input|
      invariant p <= limit && p <= |input| && left == input[p..]
      invariant result == Truncate(sum, size)
      invariant Onward(input, limit, 0, 1) == Onward(left, limit - p, sum, weight)
    {
      var byte := input[p];
      assert byte == left[0];
      var group := Scaled(weight, byte % 128);
      TruncateAdd(sum, group, size);
      result := Truncate(result + group, size);
      if byte < 128 {
        OnwardLast(left, limit - p, sum, weight);
        TruncatedResult(sum + group, left[1..], size);
        return Ok(result, input[p + 1..]);
      }
      OnwardStep(left, limit - p, sum, weight);
      sum, weight, p, left := sum + group, 128 * weight, p + 1, left[1..];
    }
    OnwardEnd(left, limit - p, sum, weight);
    r := Fail;
  }

  function Scaled(weight: nat, group: nat): nat {
    weight * group
  }

  lemma ModAdd(a: int, b: int, m: int)
    requires m > 0
    ensures (a % m + b) % m == (a + b) % m
  {
    assert a + b == (a / m) * m + (a % m + b);
    ModShift(a % m + b, a / m, m);
  }

  lemma ModShift(a: int, q: int, m: int)
    requires m > 0
    ensures (a + q * m) % m == a % m
  {
    var d := (a + q * m) / m - q - a / m;
    assert d * m == a % m - (a + q * m) % m;
    assert d >= 1 ==> d * m >= m;
    assert d <= -1 ==> d * m <= -m;
  }

  // ---------- length-prefixed slices ----------

  function PutSlice(s: Bytes): Bytes {
    PutVarint(|s|) + s
  }

  function GetSlice(input: Bytes): (r: Parsed<Bytes>)
    ensures r.Ok? ==> |r.rest| < |input|
  {
    match GetVarint32(input)
    case Fail => Fail
    case Ok(n, rest) => if n <= |rest| then Ok(rest[..n], rest[n..]) else Fail
  }

  lemma SliceRoundTrip(s: Bytes, rest: Bytes)
    requires |s| < TWO32
    ensures GetSlice(PutSlice(s) + rest) == Ok(s, rest)
  {
    assert PutSlice(s) + rest == PutVarint(|s|) + (s + rest);
    Varint32RoundTrip(|s|, s + rest);
    assert (s + rest)[..|s|] == s && (s + rest)[|s|..] == rest;
  }

  // ---------- the checksum mask ----------

  const MASK_DELTA: nat := 0xa282ead8

  function Mask(crc: nat): (m: nat)
    requires crc < TWO32
    ensures m < TWO32
  {
    (crc / 0x8000 + crc % 0x8000 * 0x20000 + MASK_DELTA) % TWO32
  }

  function Unmask(masked: nat): (crc: nat)
    requires masked < TWO32
    ensures crc < TWO32
  {
    var rot := (masked - MASK_DELTA) % TWO32;
    rot / 0x20000 + rot % 0x20000 * 0x8000
  }

  lemma MaskRoundTrip(crc: nat)
    requires crc < TWO32
    ensures Unmask(Mask(crc)) == crc
  {
    var rot := crc / 0x8000 + crc % 0x8000 * 0x20000;
    assert (Mask(crc) - MASK_DELTA) % TWO32 == rot;
    assert rot / 0x20000 == crc % 0x8000 && rot % 0x20000 == crc / 0x8000;
  }
}
