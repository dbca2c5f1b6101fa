/** Decoding an encoded message gives the message back, however deeply submessages are nested. */
module NanopbRoundTrip {
  import opened Keys
  import opened Coding
  import opened Nanopb
  import opened Sequences

  // ---------- single values ----------

  lemma NumberRoundTrip(t: LType, v: Value, rest: Bytes)
    requires Packable(t) && TypeOk(t) && ValueOk(t, v)
    ensures DecodeNumber(t, EncodeValue(t, v) + rest) == Ok(v, rest)
  {
    match t
    case Int(w) =>
      Varint64RoundTrip(v.n % TWO64, rest);
      SignedRoundTrip(v.n, w);
    case UInt(w) => Varint64RoundTrip(v.n, rest);
    case SInt(w) =>
      Varint64RoundTrip(ZigZag(v.n), rest);
      ZigZagRoundTrip(v.n);
    case Fixed32Bits =>
      Fixed32RoundTrip(v.n);
      assert (Fixed32(v.n) + rest)[..4] == Fixed32(v.n) && (Fixed32(v.n) + rest)[4..] == rest;
    case Fixed64Bits =>
      Fixed64RoundTrip(v.n);
      assert (Fixed64(v.n) + rest)[..8] == Fixed64(v.n) && (Fixed64(v.n) + rest)[8..] == rest;
  }

  /** A negative number of any width is sign-extended to 64 bits and recovered from the low 32. */
  lemma SignedRoundTrip(n: int, w: nat)
    requires WidthOk(w) && SignedFits(n, w)
    ensures ToSigned(n % TWO64, w) == n
  {
    assert n % TWO64 == if n < 0 then n + TWO64 else n;
    if w != 8 {
      assert (n % TWO64) % TWO32 == if n < 0 then n + TWO32 else n;
    }
  }

  lemma SliceSplits(b: Bytes, rest: Bytes)
    requires |b| < TWO32
    ensures GetVarint32(PutSlice(b) + rest) == Ok(|b|, b + rest) && Take(b + rest, |b|) == Ok(b, rest)
  {
    assert PutSlice(b) + rest == PutVarint(|b|) + (b + rest);
    Varint32RoundTrip(|b|, b + rest);
    assert (b + rest)[..|b|] == b && (b + rest)[|b|..] == rest;
  }

  lemma BlobRoundTrip(t: LType, v: Value, rest: Bytes)
    requires (t.BytesUpTo? || t.StringIn? || t.FixedBytes?) && ValueOk(t, v) && |v.b| < TWO32
    ensures DecodeBlob(t, PutSlice(v.b) + rest) == Ok(v, rest)
  {
    SliceSplits(v.b, rest);
    if t.FixedBytes? && t.n == 0 {
      assert seq(t.n, i => 0) == v.b;
    }
  }

  // ---------- one key of a message ----------

  lemma {:induction false} FindTag(fields: seq<Field>, i: nat)
    requires i < |fields| && forall j :: 0 <= j < i ==> fields[j].tag != fields[i].tag
    ensures Find(fields, fields[i].tag) == i
  {
    if i == 0 {
    } else {
      FindTag(fields[1..], i - 1);
    }
  }

  /** A key in front selects its field. */
  lemma KeyStep(fields: seq<Field>, m: Message, seen: set<nat>, i: nat, wire: nat, rest: Bytes, m': Message,
                rest': Bytes)
    requires DescriptorOk(fields) && |m| == |fields| && i < |fields| && wire < 8
    requires DecodeField(fields, m, i, wire, rest) == Ok(m', rest')
    ensures DecodeLoop(fields, m, seen, EncodeTag(fields[i].tag, wire) + rest)
      == DecodeLoop(fields, m', seen + {i}, rest')
  {
    var tag := fields[i].tag;
    KeyReads(tag, wire, rest);
    FindTag(fields, i);
    LoopStep(fields, m, seen, EncodeTag(tag, wire) + rest, tag * 8 + wire, rest, i, m', rest');
  }

  lemma KeyReads(tag: nat, wire: nat, rest: Bytes)
    requires 0 < tag && tag * 8 + 7 < TWO32 && wire < 8
    ensures EncodeTag(tag, wire) + rest != [] && GetVarint32(EncodeTag(tag, wire) + rest) == Ok(tag * 8 + wire, rest)
    ensures (tag * 8 + wire) / 8 == tag && (tag * 8 + wire) % 8 == wire
  {
    Varint32RoundTrip(tag * 8 + wire, rest);
    PutVarintHead(tag * 8 + wire, rest);
  }

  lemma PutVarintHead(v: nat, rest: Bytes)
    ensures PutVarint(v) + rest != []
  {
  }

  lemma LoopStep(fields: seq<Field>, m: Message, seen: set<nat>, input: Bytes, key: nat, rest: Bytes, i: nat,
                 m': Message, rest': Bytes)
    requires |m| == |fields| && input != [] && GetVarint32(input) == Ok(key, rest) && key != 0
    requires i == Find(fields, key / 8) < |fields| && DecodeField(fields, m, i, key % 8, rest) == Ok(m', rest')
    ensures DecodeLoop(fields, m, seen, input) == DecodeLoop(fields, m', seen + {i}, rest')
  {
  }

  // ---------- how far decoding has come ----------

  /** So many items of each field are decoded. */
  predicate CountsOk(m: Message, counts: seq<nat>) {
    |counts| == |m| && forall i :: 0 <= i < |m| ==> counts[i] <= |m[i]|
  }

  /** What field `i` holds once `n` of its items are decoded. */
  function Sofar(fields: seq<Field>, m: Message, i: nat, n: nat): seq<Value>
    requires |m| == |fields| && i < |fields| && n <= |m[i]|
  {
    if n == 0 then BlankItems(fields[i]) else m[i][..n]
  }

  /** The message decoded so far. */
  function Got(fields: seq<Field>, m: Message, counts: seq<nat>): (r: Message)
    requires |m| == |fields| && CountsOk(m, counts)
    ensures |r| == |fields|
  {
    seq(|fields|, i requires 0 <= i < |fields| => Sofar(fields, m, i, counts[i]))
  }

  lemma GotNext(fields: seq<Field>, m: Message, counts: seq<nat>, k: nat, n: nat)
    requires |m| == |fields| && CountsOk(m, counts) && k < |fields| && n <= |m[k]|
    ensures Got(fields, m, counts[k := n]) == Got(fields, m, counts)[k := Sofar(fields, m, k, n)]
  {
  }

  lemma GotAll(fields: seq<Field>, m: Message, counts: seq<nat>)
    requires MessageOk(fields, m) && |counts| == |m| && forall i :: 0 <= i < |m| ==> counts[i] == |m[i]|
    ensures CountsOk(m, counts) && Got(fields, m, counts) == m
  {
    forall i | 0 <= i < |fields| ensures Sofar(fields, m, i, counts[i]) == m[i] {
      assert FieldOk(fields[i], m[i]);
      assert m[i][..|m[i]|] == m[i];
    }
  }

  /** Only field `k` may differ. */
  ghost predicate SameBut(a: Message, b: Message, k: nat) {
    |a| == |b| && forall j :: 0 <= j < |a| && j != k ==> a[j] == b[j]
  }

  /** Choosing a member of a oneof in a well-formed message takes nothing out. */
  lemma ChooseKeeps(fields: seq<Field>, m: Message, counts: seq<nat>, k: nat)
    requires MessageOk(fields, m) && CountsOk(m, counts) && k < |fields| && m[k] != []
    ensures SameBut(Choose(fields, Got(fields, m, counts), k), Got(fields, m, counts), k)
  {
    var got := Got(fields, m, counts);
    forall j | 0 <= j < |fields| && j != k && fields[k].rule.OneOf? && fields[j].rule == fields[k].rule
      ensures got[j] == []
    {
      assert m[j] == [];
    }
  }

  lemma SofarNext(fields: seq<Field>, m: Message, k: nat, n: nat)
    requires |m| == |fields| && k < |fields| && n < |m[k]| && CountOk(fields[k].rule, |m[k]|)
    ensures Sofar(fields, m, k, n + 1) ==
      if fields[k].rule.Repeated? then Sofar(fields, m, k, n) + [m[k][n]] else [m[k][n]]
    ensures if fields[k].rule.Repeated? then |Sofar(fields, m, k, n)| < fields[k].rule.max
            else n == 0 && Sofar(fields, m, k, n) == BlankItems(fields[k])
  {
  }

  // ---------- items behind tags ----------

  /** `body` decodes, over a blank value, to `v`, whatever follows. */
  ghost predicate ReadsAs(t: LType, body: Bytes, v: Value) {
    forall rest :: DecodeValue(t, Blank(t), body + rest) == Ok(v, rest)
  }

  /** The next item of field `k`, in any bytes that decode to it. */
  lemma ItemStep(fields: seq<Field>, m: Message, counts: seq<nat>, seen: set<nat>, k: nat, body: Bytes, rest: Bytes)
    requires DescriptorOk(fields) && MessageOk(fields, m) && CountsOk(m, counts) && k < |fields|
    requires !Packed(fields[k]) && counts[k] < |m[k]| && ReadsAs(fields[k].ltype, body, m[k][counts[k]])
    ensures
      DecodeLoop(fields, Got(fields, m, counts), seen,
                 EncodeTag(fields[k].tag, WireType(fields[k].ltype)) + (body + rest)) ==
      DecodeLoop(fields, Got(fields, m, counts[k := counts[k] + 1]), seen + {k}, rest)
  {
    hide DescriptorOk;
    var f, got, got' := fields[k], Got(fields, m, counts), Got(fields, m, counts[k := counts[k] + 1]);
    assert FieldOk(f, m[k]);
    SofarNext(fields, m, k, counts[k]);
    GotNext(fields, m, counts, k, counts[k] + 1);
    ChooseKeeps(fields, m, counts, k);
    ItemDecodes(fields, got, k, m[k][counts[k]], body, rest);
    KeyStep(fields, got, seen, k, WireType(f.ltype), body + rest, got', rest);
  }

  lemma ItemDecodes(fields: seq<Field>, got: Message, k: nat, v: Value, body: Bytes, rest: Bytes)
    requires |got| == |fields| && k < |fields| && !Packed(fields[k]) && ReadsAs(fields[k].ltype, body, v)
    requires if fields[k].rule.Repeated? then |got[k]| < fields[k].rule.max else got[k] == BlankItems(fields[k])
    requires SameBut(Choose(fields, got, k), got, k)
    ensures DecodeField(fields, got, k, WireType(fields[k].ltype), body + rest) ==
      Ok(got[k := if fields[k].rule.Repeated? then got[k] + [v] else [v]], rest)
  {
    assert Current(fields[k], got[k]) == Blank(fields[k].ltype);
    assert DecodeValue(fields[k].ltype, Blank(fields[k].ltype), body + rest) == Ok(v, rest);
    var items := if fields[k].rule.Repeated? then got[k] + [v] else [v];
    assert Choose(fields, got, k)[k := items] == got[k := items];
  }

  // ---------- packed arrays ----------

  lemma {:induction false} PackedRoundTrip(t: LType, before: seq<Value>, items: seq<Value>, max: nat)
    requires Packable(t) && TypeOk(t) && |before| + |items| <= max
    requires forall j :: 0 <= j < |items| ==> ValueOk(t, items[j])
    ensures DecodePacked(t, before, max, EncodeBare(t, items)) == Some(before + items)
    decreases |items|
  {
    if items == [] {
      assert before + items == before;
    } else {
      var tail := EncodeBare(t, items[1..]);
      NumberRoundTrip(t, items[0], tail);
      NumberNotEmpty(t, items[0]);
      PackedNext(t, before, max, EncodeValue(t, items[0]) + tail, items[0], tail);
      PackedRoundTrip(t, before + [items[0]], items[1..], max);
      TakeFirst(before, items);
    }
  }

  lemma TakeFirst(before: seq<Value>, items: seq<Value>)
    requires items != []
    ensures before + [items[0]] + items[1..] == before + items
  {
  }

  lemma PackedNext(t: LType, before: seq<Value>, max: nat, part: Bytes, v: Value, rest: Bytes)
    requires Packable(t) && part != [] && |before| < max && DecodeNumber(t, part) == Ok(v, rest)
    ensures DecodePacked(t, before, max, part) == DecodePacked(t, before + [v], max, rest)
  {
  }

  lemma NumberNotEmpty(t: LType, v: Value)
    requires Packable(t) && ValueOk(t, v)
    ensures EncodeValue(t, v) != []
  {
  }

  lemma PackedStep(fields: seq<Field>, m: Message, counts: seq<nat>, seen: set<nat>, k: nat, rest: Bytes)
    requires DescriptorOk(fields) && MessageOk(fields, m) && CountsOk(m, counts) && k < |fields|
    requires Packed(fields[k]) && counts[k] == 0 && m[k] != []
    requires FieldOk(fields[k], m[k]) && TypeOk(fields[k].ltype) && |EncodeBare(fields[k].ltype, m[k])| < TWO32
    ensures DecodeLoop(fields, Got(fields, m, counts), seen, EncodeField(fields[k], m[k]) + rest) ==
            DecodeLoop(fields, Got(fields, m, counts[k := |m[k]|]), seen + {k}, rest)
  {
    hide DecodeLoop, DecodeField;
    var f, got := fields[k], Got(fields, m, counts);
    var body := EncodeBare(f.ltype, m[k]);
    GotNext(fields, m, counts, k, |m[k]|);
    assert got[k] == [] && m[k][..|m[k]|] == m[k];
    PackedDecodes(fields, got, k, m[k], rest);
    Associative(EncodeTag(f.tag, WT_STRING), PutSlice(body), rest);
    KeyStep(fields, got, seen, k, WT_STRING, PutSlice(body) + rest, Got(fields, m, counts[k := |m[k]|]), rest);
  }

  lemma PackedDecodes(fields: seq<Field>, got: Message, k: nat, items: seq<Value>, rest: Bytes)
    requires |got| == |fields| && k < |fields| && Packed(fields[k]) && got[k] == []
    requires FieldOk(fields[k], items) && TypeOk(fields[k].ltype) && |EncodeBare(fields[k].ltype, items)| < TWO32
    ensures DecodeField(fields, got, k, WT_STRING, PutSlice(EncodeBare(fields[k].ltype, items)) + rest) ==
      Ok(got[k := items], rest)
  {
    var f, body := fields[k], EncodeBare(fields[k].ltype, items);
    PackedRoundTrip(f.ltype, [], items, f.rule.max);
    assert [] + items == items;
    SliceSplits(body, rest);
  }

  // ---------- whole messages ----------

  /** Every length that is written fits the 32 bits it is read with. */
  predicate LengthsFit(t: LType, v: Value)
    requires ValueOk(t, v)
    decreases t, 0
  {
    match t
    case Submessage(fields) => |EncodeMessage(fields, v.m)| < TWO32 && AllLengthsFit(fields, v.m)
    case BytesUpTo(_) => |v.b| < TWO32
    case StringIn(_) => |v.b| < TWO32
    case FixedBytes(_) => |v.b| < TWO32
    case _ => true
  }

  predicate FieldLengthsFit(f: Field, items: seq<Value>)
    requires FieldOk(f, items)
    decreases f, 0
  {
    (Packed(f) ==> |EncodeBare(f.ltype, items)| < TWO32) &&
    forall j :: 0 <= j < |items| ==> LengthsFit(f.ltype, items[j])
  }

  predicate AllLengthsFit(fields: seq<Field>, m: Message)
    requires MessageOk(fields, m)
    decreases fields, 1
  {
    forall i :: 0 <= i < |fields| ==> FieldLengthsFit(fields[i], m[i])
  }

  lemma {:induction false} ValueRoundTrip(t: LType, v: Value, rest: Bytes)
    requires TypeOk(t) && ValueOk(t, v) && LengthsFit(t, v)
    ensures DecodeValue(t, Blank(t), EncodeValue(t, v) + rest) == Ok(v, rest)
    decreases t, 0, 0
  {
    match t
    case Submessage(fields) =>
      var part := EncodeMessage(fields, v.m);
      SliceSplits(part, rest);
      FittingRoundTrip(fields, v.m);
    case BytesUpTo(_) => BlobRoundTrip(t, v, rest);
    case StringIn(_) => BlobRoundTrip(t, v, rest);
    case FixedBytes(_) => BlobRoundTrip(t, v, rest);
    case _ => NumberRoundTrip(t, v, rest);
  }

  lemma {:induction false} ValueReadsAs(t: LType, v: Value)
    requires TypeOk(t) && ValueOk(t, v) && LengthsFit(t, v)
    ensures ReadsAs(t, EncodeValue(t, v), v)
    decreases t, 0, 1
  {
    forall rest ensures DecodeValue(t, Blank(t), EncodeValue(t, v) + rest) == Ok(v, rest) {
      ValueRoundTrip(t, v, rest);
    }
  }

  /** The items of field `k` from the n-th on, each behind its tag. */
  lemma {:induction false} TaggedStep(fields: seq<Field>, m: Message, counts: seq<nat>, seen: set<nat>, k: nat,
                                      rest: Bytes)
    requires DescriptorOk(fields) && MessageOk(fields, m) && CountsOk(m, counts) && k < |fields|
    requires FieldLengthsFit(fields[k], m[k]) && !Packed(fields[k]) && counts[k] < |m[k]|
    ensures
      DecodeLoop(fields, Got(fields, m, counts), seen,
                 EncodeTagged(fields[k].tag, fields[k].ltype, m[k][counts[k]..]) + rest) ==
      DecodeLoop(fields, Got(fields, m, counts[k := |m[k]|]), seen + {k}, rest)
    decreases fields, 0, |m[k]| - counts[k]
  {
    hide DecodeLoop, EncodeTagged, Got, EncodeValue, LengthsFit;
    var f, n := fields[k], counts[k];
    assert FieldTypeOk(f) && FieldOk(f, m[k]);
    ItemReadsAs(f, m[k], n);
    OneTagged(fields, m, counts, seen, k, rest);
    if n + 1 < |m[k]| {
      TaggedStep(fields, m, counts[k := n + 1], seen + {k}, k, rest);
      assert counts[k := n + 1][k := |m[k]|] == counts[k := |m[k]|] && seen + {k} + {k} == seen + {k};
    } else {
      NoneTagged(f, m[k][n + 1..], rest);
    }
  }

  lemma OneTagged(fields: seq<Field>, m: Message, counts: seq<nat>, seen: set<nat>, k: nat, rest: Bytes)
    requires DescriptorOk(fields) && MessageOk(fields, m) && CountsOk(m, counts) && k < |fields|
    requires !Packed(fields[k]) && counts[k] < |m[k]| && FieldTypeOk(fields[k]) && FieldOk(fields[k], m[k])
    requires ReadsAs(fields[k].ltype, EncodeValue(fields[k].ltype, m[k][counts[k]]), m[k][counts[k]])
    ensures
      DecodeLoop(fields, Got(fields, m, counts), seen,
                 EncodeTagged(fields[k].tag, fields[k].ltype, m[k][counts[k]..]) + rest) ==
      DecodeLoop(fields, Got(fields, m, counts[k := counts[k] + 1]), seen + {k},
                 EncodeTagged(fields[k].tag, fields[k].ltype, m[k][counts[k] + 1..]) + rest)
  {
    hide DecodeLoop, EncodeTagged, EncodeValue, Got, ReadsAs;
    var f, n := fields[k], counts[k];
    var tail := EncodeTagged(f.tag, f.ltype, m[k][n + 1..]) + rest;
    TaggedSplit(f, m[k], n, rest);
    ItemStep(fields, m, counts, seen, k, EncodeValue(f.ltype, m[k][n]), tail);
  }

  lemma NoneTagged(f: Field, items: seq<Value>, rest: Bytes)
    requires items == []
    ensures EncodeTagged(f.tag, f.ltype, items) + rest == rest
  {
  }

  lemma TaggedSplit(f: Field, items: seq<Value>, j: nat, rest: Bytes)
    requires FieldOk(f, items) && j < |items|
    ensures EncodeTagged(f.tag, f.ltype, items[j..]) + rest ==
      EncodeTag(f.tag, WireType(f.ltype)) +
        (EncodeValue(f.ltype, items[j]) + (EncodeTagged(f.tag, f.ltype, items[j + 1..]) + rest))
  {
    assert items[j..][1..] == items[j + 1..];
    var tag, value := EncodeTag(f.tag, WireType(f.ltype)), EncodeValue(f.ltype, items[j]);
    var tail := EncodeTagged(f.tag, f.ltype, items[j + 1..]);
    Associative(tag, value, tail);
    Associative(tag, value + tail, rest);
    Associative(value, tail, rest);
  }

  lemma {:induction false} ItemReadsAs(f: Field, items: seq<Value>, j: nat)
    requires FieldTypeOk(f) && FieldOk(f, items) && FieldLengthsFit(f, items) && j < |items|
    ensures ReadsAs(f.ltype, EncodeValue(f.ltype, items[j]), items[j])
    decreases f, 0, 0
  {
    ValueReadsAs(f.ltype, items[j]);
  }

  lemma {:induction false} FieldStep(fields: seq<Field>, m: Message, counts: seq<nat>, seen: set<nat>, k: nat,
                                     rest: Bytes)
    requires DescriptorOk(fields) && MessageOk(fields, m) && CountsOk(m, counts) && k < |fields| && counts[k] == 0
    requires FieldLengthsFit(fields[k], m[k])
    ensures DecodeLoop(fields, Got(fields, m, counts), seen, EncodeField(fields[k], m[k]) + rest) ==
            DecodeLoop(fields, Got(fields, m, counts[k := |m[k]|]), if m[k] == [] then seen else seen + {k}, rest)
    decreases fields, 1, 0
  {
    assert FieldTypeOk(fields[k]) && FieldOk(fields[k], m[k]);
    if m[k] == [] {
      assert EncodeField(fields[k], m[k]) + rest == rest;
      assert counts[k := 0] == counts;
    } else if Packed(fields[k]) {
      PackedStep(fields, m, counts, seen, k, rest);
    } else {
      assert m[k][0..] == m[k];
      TaggedStep(fields, m, counts, seen, k, rest);
    }
  }

  /** The first `k` fields are decoded. */
  function FirstFields(m: Message, k: nat): (r: seq<nat>)
    requires k <= |m|
    ensures CountsOk(m, r)
  {
    seq(|m|, i requires 0 <= i < |m| => if i < k then |m[i]| else 0)
  }

  lemma {:induction false} LoopFrom(fields: seq<Field>, m: Message, k: nat, seen: set<nat>)
    requires DescriptorOk(fields) && MessageOk(fields, m) && AllLengthsFit(fields, m) && k <= |fields|
    requires forall i: nat :: i < k && fields[i].rule.Required? ==> i in seen
    ensures DecodeLoop(fields, Got(fields, m, FirstFields(m, k)), seen, EncodeFrom(fields, m, k)) == Some(m)
    decreases fields, 2, |fields| - k
  {
    if k == |fields| {
      GotAll(fields, m, FirstFields(m, k));
    } else {
      assert FieldOk(fields[k], m[k]) && FieldLengthsFit(fields[k], m[k]);
      FieldStep(fields, m, FirstFields(m, k), seen, k, EncodeFrom(fields, m, k + 1));
      assert FirstFields(m, k)[k := |m[k]|] == FirstFields(m, k + 1);
      LoopFrom(fields, m, k + 1, if m[k] == [] then seen else seen + {k});
    }
  }

  // ---------- lengths ----------

  lemma ItemWithin(f: Field, items: seq<Value>, j: nat)
    requires FieldOk(f, items) && j < |items|
    ensures |EncodeValue(f.ltype, items[j])| <= |EncodeField(f, items)|
  {
    if Packed(f) {
      BareWithin(f.ltype, items, j);
    } else {
      TaggedWithin(f.tag, f.ltype, items, j);
    }
  }

  lemma {:induction false} BareWithin(t: LType, items: seq<Value>, j: nat)
    requires j < |items| && forall i :: 0 <= i < |items| ==> ValueOk(t, items[i])
    ensures |EncodeValue(t, items[j])| <= |EncodeBare(t, items)|
    decreases |items|
  {
    if j == 0 {
    } else {
      BareWithin(t, items[1..], j - 1);
    }
  }

  lemma {:induction false} TaggedWithin(tag: nat, t: LType, items: seq<Value>, j: nat)
    requires j < |items| && forall i :: 0 <= i < |items| ==> ValueOk(t, items[i])
    ensures |EncodeValue(t, items[j])| <= |EncodeTagged(tag, t, items)|
    decreases |items|
  {
    if j == 0 {
    } else {
      TaggedWithin(tag, t, items[1..], j - 1);
    }
  }

  lemma {:induction false} FieldWithin(fields: seq<Field>, m: Message, i: nat, k: nat)
    requires MessageOk(fields, m) && k <= i < |fields|
    ensures FieldOk(fields[i], m[i]) && |EncodeField(fields[i], m[i])| <= |EncodeFrom(fields, m, k)|
    decreases i - k
  {
    assert FieldOk(fields[i], m[i]) && FieldOk(fields[k], m[k]);
    if k < i {
      FieldWithin(fields, m, i, k + 1);
    }
  }

  /** A message short enough as a whole has no length that is too long. */
  lemma {:induction false} ShortMessagesFit(fields: seq<Field>, m: Message)
    requires MessageOk(fields, m) && |EncodeMessage(fields, m)| < TWO32
    ensures AllLengthsFit(fields, m)
    decreases fields, 1
  {
    forall i | 0 <= i < |fields| ensures FieldLengthsFit(fields[i], m[i]) {
      FieldWithin(fields, m, i, 0);
      ShortFieldFits(fields[i], m[i]);
    }
  }

  lemma {:induction false} ShortFieldFits(f: Field, items: seq<Value>)
    requires FieldOk(f, items) && |EncodeField(f, items)| < TWO32
    ensures FieldLengthsFit(f, items)
    decreases f, 1
  {
    forall j | 0 <= j < |items| ensures LengthsFit(f.ltype, items[j]) {
      ItemWithin(f, items, j);
      ShortValueFits(f.ltype, items[j]);
    }
  }

  lemma {:induction false} ShortValueFits(t: LType, v: Value)
    requires ValueOk(t, v) && |EncodeValue(t, v)| < TWO32
    ensures LengthsFit(t, v)
    decreases t, 1
  {
    if t.Submessage? {
      ShortMessagesFit(t.fields, v.m);
    }
  }

  /** Decoding what was encoded gives the message back, for any nesting of submessages. */
  lemma MessageRoundTrip(fields: seq<Field>, m: Message)
    requires DescriptorOk(fields) && MessageOk(fields, m) && |EncodeMessage(fields, m)| < TWO32
    ensures Decode(fields, EncodeMessage(fields, m)) == Some(m)
  {
    ShortMessagesFit(fields, m);
    FittingRoundTrip(fields, m);
  }

  lemma {:induction false} FittingRoundTrip(fields: seq<Field>, m: Message)
    requires DescriptorOk(fields) && MessageOk(fields, m) && AllLengthsFit(fields, m)
    ensures Decode(fields, EncodeMessage(fields, m)) == Some(m)
    decreases fields, 3, 0
  {
    assert Got(fields, m, FirstFields(m, 0)) == BlankMessage(fields);
    LoopFrom(fields, m, 0, {});
  }
}
