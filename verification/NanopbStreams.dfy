/** The two-pass encoder and the decoding loop as they run (pb_encode.c, pb_decode.c, pb_common.c).
    Sizes come from running the encoder on a stream that only counts; the same code then writes.
  */
module NanopbStreams {
  import opened Keys
  import opened Coding
  import opened Nanopb
  import opened NanopbRoundTrip
  import opened NanopbAnyOrder
  import opened Sequences
  import NanopbFits

  /** pb_ostream_t: without a callback it only counts. */
  class OStream {
    const writing: bool
    const maxSize: nat
    var sink: Bytes
    var bytesWritten: nat

    constructor (writing: bool, maxSize: nat, sink: Bytes)
      ensures this.writing == writing && this.maxSize == maxSize && this.sink == sink && bytesWritten == 0
    {
      this.writing, this.maxSize, this.sink, bytesWritten := writing, maxSize, sink, 0;
    }

    predicate Valid() reads this {
      writing ==> bytesWritten <= maxSize
    }

    /** There is room for `n` more bytes. */
    predicate Fits(n: nat) reads this {
      writing ==> bytesWritten + n <= maxSize
    }

    /** `e` was taken in, starting from the given state. */
    ghost predicate Took(e: Bytes, sink0: Bytes, written0: nat) reads this {
      bytesWritten == written0 + |e| && sink == if writing then sink0 + e else sink0
    }

    /** pb_write. */
    method Write(buf: Bytes) returns (ok: bool)
      modifies this
      ensures ok <==> old(Fits(|buf|))
      ensures ok ==> Took(buf, old(sink), old(bytesWritten))
      ensures !ok ==> sink == old(sink) && bytesWritten == old(bytesWritten)
    {
      if writing {
        if bytesWritten + |buf| > maxSize {
          return false;
        }
        sink := sink + buf;
      }
      bytesWritten := bytesWritten + |buf|;
      ok := true;
    }

    /** pb_write without data, on a counting stream. */
    method Count(n: nat)
      requires !writing
      modifies this
      ensures bytesWritten == old(bytesWritten) + n && sink == old(sink)
    {
      bytesWritten := bytesWritten + n;
    }
  }

  /** Groups until the value is used up, the last without its top bit. */
  method VarintBytes(value: nat) returns (b: Bytes)
    requires value > 0
    ensures b == PutVarint(value)
  {
    var buffer: Bytes, left := [], value;
    while left >= 128
      invariant left > 0 && buffer + PutVarint(left) == PutVarint(value)
    {
      NextGroup(buffer, left);
      buffer := buffer + [left % 128 + 128];
      left := left / 128;
    }
    buffer := buffer + [left % 128 + 128];
    // the top bit comes off the last byte
    b := buffer[|buffer| - 1 := buffer[|buffer| - 1] - 128];
    assert b == buffer[..|buffer| - 1] + [left];
  }

  lemma NextGroup(before: Bytes, left: nat)
    requires left >= 128
    ensures before + PutVarint(left) == before + [left % 128 + 128] + PutVarint(left / 128)
  {
    assert PutVarint(left) == [left % 128 + 128] + PutVarint(left / 128);
    Associative(before, [left % 128 + 128], PutVarint(left / 128));
  }

  /** pb_encode_varint. */
  method EncodeVarint(s: OStream, value: nat) returns (ok: bool)
    requires s.Valid()
    modifies s
    ensures ok <==> old(s.Fits(|PutVarint(value)|))
    ensures ok ==> s.Took(PutVarint(value), old(s.sink), old(s.bytesWritten))
  {
    if value <= 0x7F {
      ok := s.Write([value]);
      return;
    }
    var buffer := VarintBytes(value);
    ok := s.Write(buffer);
  }

  method EncodeTagTo(s: OStream, tag: nat, wire: nat) returns (ok: bool)
    requires s.Valid()
    modifies s
    ensures ok <==> old(s.Fits(|EncodeTag(tag, wire)|))
    ensures ok ==> s.Took(EncodeTag(tag, wire), old(s.sink), old(s.bytesWritten))
  {
    ok := EncodeVarint(s, tag * 8 + wire);
  }

  /** pb_encode_string. */
  method EncodeString(s: OStream, b: Bytes) returns (ok: bool)
    requires s.Valid()
    modifies s
    ensures ok <==> old(s.Fits(|PutSlice(b)|))
    ensures ok ==> s.Took(PutSlice(b), old(s.sink), old(s.bytesWritten))
  {
    ok := EncodeVarint(s, |b|);
    if !ok { return; }
    ok := s.Write(b);
  }

  /** One field encoder of the table: the value without its tag. */
  method EncodeValueTo(s: OStream, t: LType, v: Value) returns (ok: bool)
    requires s.Valid()
    requires ValueOk(t, v)
    modifies s
    ensures ok <==> old(s.Fits(|EncodeValue(t, v)|))
    ensures ok ==> s.Took(EncodeValue(t, v), old(s.sink), old(s.bytesWritten))
    decreases t, 0, 0
  {
    match t
    case Int(_) => ok := EncodeVarint(s, v.n % TWO64);
    case UInt(_) => ok := EncodeVarint(s, v.n);
    case SInt(_) => ok := EncodeVarint(s, ZigZag(v.n));
    case Fixed32Bits => ok := s.Write(Fixed32(v.n));
    case Fixed64Bits => ok := s.Write(Fixed64(v.n));
    case Submessage(fields) => ok := EncodeSubmessage(s, fields, v.m);
    case _ => ok := EncodeString(s, v.b);
  }

  /** pb_encode_submessage: count first, then write exactly as many bytes. */
  method EncodeSubmessage(s: OStream, fields: seq<Field>, m: Message) returns (ok: bool)
    requires s.Valid()
    requires MessageOk(fields, m)
    modifies s
    ensures ok <==> old(s.Fits(|PutSlice(EncodeMessage(fields, m))|))
    ensures ok ==> s.Took(PutSlice(EncodeMessage(fields, m)), old(s.sink), old(s.bytesWritten))
    decreases fields, 1, 0
  {
    hide MessageOk;
    var counter := new OStream(false, 0, []);
    var counted := Encode(counter, fields, m);
    var size := counter.bytesWritten;
    ok := EncodeVarint(s, size);
    if !ok { return; }
    if !s.writing {
      s.Count(size);
      return;
    }
    if s.bytesWritten + size > s.maxSize {
      return false;
    }
    var part := new OStream(true, size, s.sink);
    var status := Encode(part, fields, m);
    s.bytesWritten := s.bytesWritten + part.bytesWritten;
    s.sink := part.sink;
    // the size never changes between the passes
    assert status && part.bytesWritten == size;
    ok := true;
  }

  /** Items behind tags, as encode_array and encode_basic_field write them. */
  method EncodeItems(s: OStream, f: Field, items: seq<Value>) returns (ok: bool)
    requires s.Valid()
    requires FieldOk(f, items)
    modifies s
    ensures ok <==> old(s.Fits(|EncodeTagged(f.tag, f.ltype, items)|))
    ensures ok ==> s.Took(EncodeTagged(f.tag, f.ltype, items), old(s.sink), old(s.bytesWritten))
    decreases f, 0, 1
  {
    ghost var whole, done := EncodeTagged(f.tag, f.ltype, items), [];
    assert items[0..] == items;
    for i := 0 to |items|
      invariant s.Took(done, old(s.sink), old(s.bytesWritten))
      invariant whole == done + EncodeTagged(f.tag, f.ltype, items[i..])
      invariant old(s.Fits(|done|))
    {
      TaggedParts(f, items, i, done);
      ok := EncodeItem(s, f, items[i]);
      if !ok { return; }
      ghost var item := EncodeTag(f.tag, WireType(f.ltype)) + EncodeValue(f.ltype, items[i]);
      Associative(old(s.sink), done, item);
      done := done + item;
    }
    assert items[|items|..] == [];
    assert EncodeTagged(f.tag, f.ltype, []) == [] && done + [] == done;
    ok := true;
  }

  method EncodeItem(s: OStream, f: Field, v: Value) returns (ok: bool)
    requires s.Valid()
    requires ValueOk(f.ltype, v)
    modifies s
    ensures ok <==> old(s.Fits(|EncodeTag(f.tag, WireType(f.ltype)) + EncodeValue(f.ltype, v)|))
    ensures ok ==>
      s.Took(EncodeTag(f.tag, WireType(f.ltype)) + EncodeValue(f.ltype, v), old(s.sink), old(s.bytesWritten))
    decreases f, 0, 0
  {
    ok := EncodeTagTo(s, f.tag, WireType(f.ltype));
    if !ok { return; }
    ok := EncodeValueTo(s, f.ltype, v);
  }

  lemma TaggedParts(f: Field, items: seq<Value>, i: nat, done: Bytes)
    requires FieldOk(f, items) && i < |items|
    ensures done + EncodeTagged(f.tag, f.ltype, items[i..]) ==
      done + (EncodeTag(f.tag, WireType(f.ltype)) + EncodeValue(f.ltype, items[i])) +
        EncodeTagged(f.tag, f.ltype, items[i + 1..])
  {
    TaggedSplit(f, items, i, []);
    var tag, value, tail := EncodeTag(f.tag, WireType(f.ltype)), EncodeValue(f.ltype, items[i]),
      EncodeTagged(f.tag, f.ltype, items[i + 1..]);
    assert tail + [] == tail;
    Associative(tag, value, tail);
    Associative(done, tag + value, tail);
  }

  method EncodeBareTo(s: OStream, t: LType, items: seq<Value>) returns (ok: bool)
    requires s.Valid()
    requires Packable(t) && forall j :: 0 <= j < |items| ==> ValueOk(t, items[j])
    modifies s
    ensures ok <==> old(s.Fits(|EncodeBare(t, items)|))
    ensures ok ==> s.Took(EncodeBare(t, items), old(s.sink), old(s.bytesWritten))
    decreases t, 1, 0
  {
    ghost var whole, done := EncodeBare(t, items), [];
    assert items[0..] == items;
    for i := 0 to |items|
      invariant s.Took(done, old(s.sink), old(s.bytesWritten))
      invariant whole == done + EncodeBare(t, items[i..])
      invariant old(s.Fits(|done|))
    {
      BareParts(t, items, i, done);
      ok := EncodeValueTo(s, t, items[i]);
      if !ok { return; }
      Associative(old(s.sink), done, EncodeValue(t, items[i]));
      done := done + EncodeValue(t, items[i]);
    }
    assert items[|items|..] == [];
    assert done == whole;
    ok := true;
  }

  lemma BareParts(t: LType, items: seq<Value>, i: nat, done: Bytes)
    requires i < |items| && forall j :: 0 <= j < |items| ==> ValueOk(t, items[j])
    ensures done + EncodeBare(t, items[i..]) == done + EncodeValue(t, items[i]) + EncodeBare(t, items[i + 1..])
  {
    assert items[i..][1..] == items[i + 1..];
  }

  /** The size of a packed array: a product for fixed widths, otherwise counted. */
  method PackedSize(t: LType, items: seq<Value>) returns (size: nat)
    requires Packable(t) && forall j :: 0 <= j < |items| ==> ValueOk(t, items[j])
    ensures size == |EncodeBare(t, items)|
    decreases t, 2, 0
  {
    if t.Fixed32Bits? {
      size := 4 * |items|;
      FixedSize(t, items, 4);
    } else if t.Fixed64Bits? {
      size := 8 * |items|;
      FixedSize(t, items, 8);
    } else {
      var counter := new OStream(false, 0, []);
      var counted := EncodeBareTo(counter, t, items);
      size := counter.bytesWritten;
    }
  }

  lemma {:induction false} FixedSize(t: LType, items: seq<Value>, width: nat)
    requires (t.Fixed32Bits? && width == 4) || (t.Fixed64Bits? && width == 8)
    requires forall j :: 0 <= j < |items| ==> ValueOk(t, items[j])
    ensures |EncodeBare(t, items)| == width * |items|
    decreases |items|
  {
    if items == [] {
    } else {
      FixedSize(t, items[1..], width);
      assert |items| == |items[1..]| + 1;
      assert width * |items| == width * |items[1..]| + width;
    }
  }

  /** encode_array on a packable type. */
  method EncodePacked(s: OStream, f: Field, items: seq<Value>) returns (ok: bool)
    requires s.Valid()
    requires FieldOk(f, items) && Packed(f)
    modifies s
    ensures ok <==> old(s.Fits(|EncodeField(f, items)|))
    ensures ok ==> s.Took(EncodeField(f, items), old(s.sink), old(s.bytesWritten))
    decreases f, 1, 0
  {
    if items == [] {
      return true;
    }
    ghost var tag, body := EncodeTag(f.tag, WT_STRING), EncodeBare(f.ltype, items);
    Associative(old(s.sink), tag, PutVarint(|body|) + body);
    Associative(old(s.sink) + tag, PutVarint(|body|), body);
    ok := EncodeTagTo(s, f.tag, WT_STRING);
    if !ok { return; }
    var size := PackedSize(f.ltype, items);
    ok := EncodeVarint(s, size);
    if !ok { return; }
    if !s.writing {
      s.Count(size);
      return;
    }
    ok := EncodeBareTo(s, f.ltype, items);
  }

  /** encode_field. */
  method EncodeFieldTo(s: OStream, f: Field, items: seq<Value>) returns (ok: bool)
    requires s.Valid()
    requires FieldOk(f, items)
    modifies s
    ensures ok <==> old(s.Fits(|EncodeField(f, items)|))
    ensures ok ==> s.Took(EncodeField(f, items), old(s.sink), old(s.bytesWritten))
    decreases f, 2, 0
  {
    if f.rule.Repeated? && Packable(f.ltype) {
      ok := EncodePacked(s, f, items);
    } else {
      ok := EncodeItems(s, f, items);
    }
  }

  lemma MessageParts(fields: seq<Field>, m: Message, i: nat, done: Bytes)
    requires MessageOk(fields, m) && i < |fields|
    ensures FieldOk(fields[i], m[i])
    ensures done + EncodeFrom(fields, m, i) == done + EncodeField(fields[i], m[i]) + EncodeFrom(fields, m, i + 1)
  {
    assert FieldOk(fields[i], m[i]);
  }

  /** pb_encode: the same bytes are counted and written. */
  method Encode(s: OStream, fields: seq<Field>, m: Message) returns (ok: bool)
    requires s.Valid()
    requires MessageOk(fields, m)
    modifies s
    ensures ok <==> old(s.Fits(|EncodeMessage(fields, m)|))
    ensures ok ==> s.Took(EncodeMessage(fields, m), old(s.sink), old(s.bytesWritten))
    decreases fields, 0, 0
  {
    ghost var whole, done := EncodeMessage(fields, m), [];
    for i := 0 to |fields|
      invariant s.Took(done, old(s.sink), old(s.bytesWritten))
      invariant whole == done + EncodeFrom(fields, m, i)
      invariant old(s.Fits(|done|))
    {
      assert FieldOk(fields[i], m[i]);
      MessageParts(fields, m, i, done);
      ok := EncodeFieldTo(s, fields[i], m[i]);
      if !ok { return; }
      Associative(old(s.sink), done, EncodeField(fields[i], m[i]));
      done := done + EncodeField(fields[i], m[i]);
    }
    assert done == whole;
    ok := true;
  }

  /** pb_get_encoded_size. */
  method EncodedSize(fields: seq<Field>, m: Message) returns (size: nat)
    requires MessageOk(fields, m)
    ensures size == |EncodeMessage(fields, m)|
  {
    var s := new OStream(false, 0, []);
    var ok := Encode(s, fields, m);
    size := s.bytesWritten;
  }

  // ---------- decoding ----------

  /** pb_field_iter_t: moves through the fields and wraps around at the end. */
  class FieldIter {
    const fields: seq<Field>
    var pos: nat

    ghost predicate Valid() reads this {
      fields == [] || pos < |fields|
    }

    constructor (fields: seq<Field>)
      ensures Valid() && this.fields == fields && pos == 0
    {
      this.fields, pos := fields, 0;
    }

    /** False when the end is reached and the iterator is back at the beginning. */
    method Next() returns (more: bool)
      requires Valid()
      modifies this
      ensures Valid() && (more <==> old(pos) + 1 < |fields|)
      ensures pos == if old(pos) + 1 < |fields| then old(pos) + 1 else 0
    {
      if fields == [] {
        pos := 0;
        return false;
      }
      pos := pos + 1;
      if pos == |fields| {
        pos := 0;
        return false;
      }
      more := true;
    }

    /** One turn through all fields from the current one: the same answer as a search from the start. */
    method FindTag(tag: nat) returns (found: bool)
      requires Valid() && DescriptorOk(fields)
      modifies this
      ensures Valid() && (found <==> Find(fields, tag) < |fields|) && (found ==> pos == Find(fields, tag))
    {
      if fields == [] {
        return false;
      }
      var start, turns := pos, 0;
      while turns == 0 || pos != start
        invariant Valid() && start < |fields| && turns <= |fields|
        invariant pos == (if start + turns < |fields| then start + turns else start + turns - |fields|)
        invariant forall i :: 0 <= i < |fields| && (start <= i < start + turns || i + |fields| < start + turns) ==>
          fields[i].tag != tag
        decreases |fields| - turns
      {
        if fields[pos].tag == tag {
          OnlyTag(fields, pos);
          return true;
        }
        var more := Next();
        turns := turns + 1;
      }
      found := false;
    }
  }

  lemma OnlyTag(fields: seq<Field>, i: nat)
    requires DescriptorOk(fields) && i < |fields|
    ensures Find(fields, fields[i].tag) == i
  {
    var j := Find(fields, fields[i].tag);
    assert j <= i;
  }

  /** pb_decode_noinit, for a struct that holds `m`. */
  method DecodeNoInit(fields: seq<Field>, m: Message, input: Bytes) returns (r: Option<Message>)
    requires DescriptorOk(fields) && |m| == |fields|
    ensures r == DecodeLoop(fields, m, {}, input)
    ensures r.Some? && NanopbFits.Fitting(fields, m, {}) ==> NanopbFits.MessageFits(fields, r.value)
  {
    if NanopbFits.Fitting(fields, m, {}) { NanopbFits.DecodedFits(fields, m, {}, input); }
    var iter := new FieldIter(fields);
    var dest, left, seen: set<nat> := m, input, {};
    while left != []
      invariant fresh(iter) && iter.Valid() && iter.fields == fields && |dest| == |fields|
      invariant DecodeLoop(fields, dest, seen, left) == DecodeLoop(fields, m, {}, input)
      decreases |left|
    {
      var key := GetVarint32(left);
      if key.Fail? {
        if |left| <= 5 { break; }
        return None;
      }
      if key.value == 0 { break; }
      var found := iter.FindTag(key.value / 8);
      if !found {
        var rest := SkipField(key.value % 8, key.rest);
        if rest.None? { return None; }
        left := rest.value;
      } else {
        var field := DecodeField(fields, dest, iter.pos, key.value % 8, key.rest);
        if field.Fail? { return None; }
        dest, left, seen := field.value, field.rest, seen + {iter.pos};
      }
    }
    var complete := AllRequired(fields, seen);
    r := if complete then Some(dest) else None;
  }

  /** The final check for missing required fields. */
  method AllRequired(fields: seq<Field>, seen: set<nat>) returns (all: bool)
    ensures all <==> RequiredSeen(fields, seen)
  {
    for i := 0 to |fields|
      invariant forall j: nat :: j < i && fields[j].rule.Required? ==> j in seen
    {
      if fields[i].rule.Required? && i !in seen {
        return false;
      }
    }
    all := true;
  }

  /** Encoding into a large enough buffer and decoding it again. */
  method EncodeAndDecode(fields: seq<Field>, m: Message, bufferSize: nat)
    returns (written: Option<Bytes>, r: Option<Message>)
    requires DescriptorOk(fields) && MessageOk(fields, m) && |EncodeMessage(fields, m)| < TWO32
    ensures written.Some? <==> |EncodeMessage(fields, m)| <= bufferSize
    ensures written.Some? ==> r == Some(m)
  {
    var s := new OStream(true, bufferSize, []);
    var ok := Encode(s, fields, m);
    if !ok {
      return None, None;
    }
    assert s.sink == EncodeMessage(fields, m);
    written := Some(s.sink);
    MessageRoundTrip(fields, m);
    r := DecodeNoInit(fields, BlankMessage(fields), s.sink);
  }

  /** Decoding a message whose pieces come in any order, among unknown fields. */
  method DecodePieces(fields: seq<Field>, input: Bytes, ghost m: Message, ghost pieces: seq<Piece>)
    returns (r: Option<Message>)
    requires DescriptorOk(fields) && MessageOk(fields, m) && PiecesOk(fields, m, NoItems(m), pieces)
    requires input == WireBytes(fields, m, NoItems(m), pieces)
    ensures r == Some(m)
  {
    AnyOrderDecodes(fields, m, pieces);
    r := DecodeNoInit(fields, BlankMessage(fields), input);
  }
}
