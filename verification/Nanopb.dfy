/** The wire format of nanopb (pb_encode.c, pb_decode.c) for static fields: required, optional with a
    has_ flag, repeated, and members of a oneof.  It follows the Protocol Buffers encoding: base-128
    varints, zigzag for signed fields, packed repeated scalars, length-prefixed strings and submessages.

    A message is the list of its fields' items: one for a required field, at most one for an optional
    field or a oneof member, up to the array size for a repeated field.
  */
module Nanopb {
  import opened Keys
  import opened Coding

  /** The byte widths are those of the C fields. */
  datatype LType =
    | Int(bytes: nat) | UInt(bytes: nat) | SInt(bytes: nat) | Fixed32Bits | Fixed64Bits
    | BytesUpTo(max: nat) | StringIn(size: nat) | FixedBytes(n: nat) | Submessage(fields: seq<Field>)

  datatype Rule = Required | Optional | Repeated(max: nat) | OneOf(union: nat)

  datatype Field = Field(tag: nat, rule: Rule, ltype: LType)

  datatype Value = Number(n: int) | Blob(b: Bytes) | Sub(m: seq<seq<Value>>)

  type Message = seq<seq<Value>>

  const WT_VARINT: nat := 0
  const WT_64BIT: nat := 1
  const WT_STRING: nat := 2
  const WT_32BIT: nat := 5

  function WireType(t: LType): (w: nat)
    ensures w < 8
  {
    match t
    case Int(_) => WT_VARINT
    case UInt(_) => WT_VARINT
    case SInt(_) => WT_VARINT
    case Fixed32Bits => WT_32BIT
    case Fixed64Bits => WT_64BIT
    case _ => WT_STRING
  }

  /** Scalars: the types that repeated fields pack. */
  predicate Packable(t: LType) {
    t.Int? || t.UInt? || t.SInt? || t.Fixed32Bits? || t.Fixed64Bits?
  }

  /** Two to the power of the bits of a field of this many bytes. */
  function Range(bytes: nat): (r: nat)
    ensures 2 <= r <= TWO64 && r % 2 == 0
  {
    if bytes == 8 then TWO64 else if bytes == 4 then TWO32 else if bytes == 2 then 0x1_0000 else 0x100
  }

  predicate WidthOk(bytes: nat) {
    bytes == 1 || bytes == 2 || bytes == 4 || bytes == 8
  }

  lemma WidthsAreBytes(bytes: nat)
    requires WidthOk(bytes)
    ensures Range(bytes) == Pow(256, bytes)
  {
    assert Pow(256, 2) == 256 * Pow(256, 1);
    assert Pow(256, 4) == 256 * 256 * Pow(256, 2);
    assert Pow(256, 8) == 256 * 256 * 256 * 256 * Pow(256, 4);
  }

  predicate SignedFits(n: int, bytes: nat) {
    -(Range(bytes) / 2) <= n < Range(bytes) / 2
  }

  // ---------- descriptors and messages ----------

  /** Tags are distinct, positive and leave room for the wire type; at most 31 fields are required. */
  predicate DescriptorOk(fields: seq<Field>)
    decreases fields, 1
  {
    (forall i :: 0 <= i < |fields| ==> fields[i].tag > 0 && fields[i].tag * 8 + 7 < TWO32) &&
    (forall i, j :: 0 <= i < j < |fields| ==> fields[i].tag != fields[j].tag) &&
    RequiredCount(fields) < 32 &&
    forall i :: 0 <= i < |fields| ==> FieldTypeOk(fields[i])
  }

  predicate FieldTypeOk(f: Field)
    decreases f, 1
  {
    TypeOk(f.ltype)
  }

  function RequiredCount(fields: seq<Field>): nat {
    if fields == [] then 0
    else RequiredCount(fields[..|fields| - 1]) + if fields[|fields| - 1].rule.Required? then 1 else 0
  }

  predicate TypeOk(t: LType)
    decreases t, 0
  {
    match t
    case Int(w) => WidthOk(w)
    case UInt(w) => WidthOk(w)
    case SInt(w) => WidthOk(w)
    case Submessage(fields) => DescriptorOk(fields)
    case _ => true
  }

  /** How many items a field can hold. */
  predicate CountOk(r: Rule, n: nat) {
    match r
    case Required => n == 1
    case Optional => n <= 1
    case Repeated(max) => n <= max
    case OneOf(_) => n <= 1
  }

  /** A oneof has at most one member. */
  predicate UnionsOk(fields: seq<Field>, m: Message)
    requires |m| == |fields|
  {
    forall i, j :: 0 <= i < j < |fields| && fields[i].rule.OneOf? && fields[j].rule == fields[i].rule ==>
      m[i] == [] || m[j] == []
  }

  predicate MessageOk(fields: seq<Field>, m: Message)
    decreases fields, 1
  {
    |m| == |fields| && UnionsOk(fields, m) && forall i :: 0 <= i < |fields| ==> FieldOk(fields[i], m[i])
  }

  predicate FieldOk(f: Field, items: seq<Value>)
    decreases f, 1
  {
    CountOk(f.rule, |items|) && forall j :: 0 <= j < |items| ==> ValueOk(f.ltype, items[j])
  }

  predicate ValueOk(t: LType, v: Value)
    decreases t, 0
  {
    match t
    case Int(w) => v.Number? && SignedFits(v.n, w)
    case UInt(w) => v.Number? && 0 <= v.n < Range(w)
    case SInt(w) => v.Number? && SignedFits(v.n, w)
    case Fixed32Bits => v.Number? && 0 <= v.n < TWO32
    case Fixed64Bits => v.Number? && 0 <= v.n < TWO64
    case BytesUpTo(max) => v.Blob? && |v.b| <= max
    case StringIn(size) => v.Blob? && |v.b| < size && forall i :: 0 <= i < |v.b| ==> v.b[i] != 0
    case FixedBytes(n) => v.Blob? && |v.b| == n
    case Submessage(fields) => v.Sub? && MessageOk(fields, v.m)
  }

  // ---------- encoding ----------

  function ZigZag(n: int): (z: nat)
    ensures z < TWO64
  {
    if n < 0 then TWO64 - 1 - (2 * n) % TWO64 else (2 * n) % TWO64
  }

  function UnZigZag(z: nat): int {
    if z % 2 == 1 then -(z / 2) - 1 else z / 2
  }

  lemma ZigZagRoundTrip(n: int)
    requires SignedFits(n, 8)
    ensures UnZigZag(ZigZag(n)) == n
  {
    if n < 0 {
      assert (2 * n) % TWO64 == 2 * n + TWO64;
    }
  }

  function EncodeTag(tag: nat, wire: nat): Bytes {
    PutVarint(tag * 8 + wire)
  }

  function EncodeValue(t: LType, v: Value): Bytes
    requires ValueOk(t, v)
    decreases t, 0, 0
  {
    match t
    case Int(_) => PutVarint(v.n % TWO64)
    case UInt(_) => PutVarint(v.n)
    case SInt(_) => PutVarint(ZigZag(v.n))
    case Fixed32Bits => Fixed32(v.n)
    case Fixed64Bits => Fixed64(v.n)
    case Submessage(fields) => PutSlice(EncodeFrom(fields, v.m, 0))
    case _ => PutSlice(v.b)
  }

  /** Items one after the other, without tags. */
  function EncodeBare(t: LType, items: seq<Value>): Bytes
    requires forall j :: 0 <= j < |items| ==> ValueOk(t, items[j])
    decreases t, 1, |items|
  {
    if items == [] then [] else EncodeValue(t, items[0]) + EncodeBare(t, items[1..])
  }

  /** Items one after the other, each behind the field's tag. */
  function EncodeTagged(tag: nat, t: LType, items: seq<Value>): Bytes
    requires forall j :: 0 <= j < |items| ==> ValueOk(t, items[j])
    decreases t, 1, |items|
  {
    if items == [] then []
    else EncodeTag(tag, WireType(t)) + (EncodeValue(t, items[0]) + EncodeTagged(tag, t, items[1..]))
  }

  predicate Packed(f: Field) {
    f.rule.Repeated? && Packable(f.ltype)
  }

  function EncodeField(f: Field, items: seq<Value>): Bytes
    requires FieldOk(f, items)
    decreases f, 0, 0
  {
    if !Packed(f) then EncodeTagged(f.tag, f.ltype, items)
    else if items == [] then []
    else EncodeTag(f.tag, WT_STRING) + PutSlice(EncodeBare(f.ltype, items))
  }

  /** The fields from the k-th on. */
  function EncodeFrom(fields: seq<Field>, m: Message, k: nat): Bytes
    requires MessageOk(fields, m) && k <= |fields|
    decreases fields, 0, |fields| - k
  {
    if k == |fields| then [] else EncodeField(fields[k], m[k]) + EncodeFrom(fields, m, k + 1)
  }

  function EncodeMessage(fields: seq<Field>, m: Message): Bytes
    requires MessageOk(fields, m)
  {
    EncodeFrom(fields, m, 0)
  }

  // ---------- decoding ----------

  function Blank(t: LType): Value
    decreases t, 0
  {
    match t
    case Submessage(fields) => Sub(BlankMessage(fields))
    case FixedBytes(n) => Blob(seq(n, i => 0))
    case BytesUpTo(_) => Blob([])
    case StringIn(_) => Blob([])
    case _ => Number(0)
  }

  /** pb_message_set_to_defaults: nothing present, required content zero. */
  function BlankMessage(fields: seq<Field>): (m: Message)
    ensures |m| == |fields|
    decreases fields, 1
  {
    seq(|fields|, i requires 0 <= i < |fields| => BlankItems(fields[i]))
  }

  function BlankItems(f: Field): seq<Value>
    decreases f, 1
  {
    if f.rule.Required? then [Blank(f.ltype)] else []
  }

  function Take(input: Bytes, n: nat): Parsed<Bytes> {
    if n <= |input| then Ok(input[..n], input[n..]) else Fail
  }

  /** The bytes of a varint field read as a signed number of the given width. */
  function ToSigned(value: nat, bytes: nat): int {
    if bytes == 8 then
      var v := value % TWO64; if v >= TWO64 / 2 then v - TWO64 else v
    else
      var v := value % TWO32; if v >= TWO32 / 2 then v - TWO32 else v
  }

  function DecodeNumber(t: LType, input: Bytes): (r: Parsed<Value>)
    requires Packable(t)
    ensures r.Ok? ==> |r.rest| < |input|
  {
    match t
    case Fixed32Bits => if |input| < 4 then Fail else Ok(Number(FixedValue(input[..4])), input[4..])
    case Fixed64Bits => if |input| < 8 then Fail else Ok(Number(FixedValue(input[..8])), input[8..])
    case Int(w) =>
      (match GetVarint64(input)
       case Fail => Fail
       case Ok(value, rest) => Checked(SignedFits(ToSigned(value, w), w), ToSigned(value, w), rest))
    case UInt(w) =>
      (match GetVarint64(input) case Fail => Fail case Ok(value, rest) => Checked(value < Range(w), value, rest))
    case SInt(w) =>
      (match GetVarint64(input)
       case Fail => Fail
       case Ok(value, rest) => Checked(SignedFits(UnZigZag(value), w), UnZigZag(value), rest))
    case _ => Fail
  }

  /** A number that does not fit its field is an error. */
  function Checked(fits: bool, n: int, rest: Bytes): Parsed<Value> {
    if fits then Ok(Number(n), rest) else Fail
  }

  function DecodeBlob(t: LType, input: Bytes): (r: Parsed<Value>)
    requires t.BytesUpTo? || t.StringIn? || t.FixedBytes?
    ensures r.Ok? ==> |r.rest| < |input|
  {
    match GetVarint32(input)
    case Fail => Fail
    case Ok(size, rest) =>
      if t.FixedBytes? && size == 0 then Ok(Blob(seq(t.n, i => 0)), rest)
      else if (t.BytesUpTo? && size > t.max) || (t.StringIn? && size + 1 > t.size) ||
        (t.FixedBytes? && size != t.n) then Fail
      else match Take(rest, size) case Fail => Fail case Ok(b, rest') => Ok(Blob(b), rest')
  }

  /** Decodes one value over `current`, into which a submessage is merged. */
  function DecodeValue(t: LType, current: Value, input: Bytes): (r: Parsed<Value>)
    ensures r.Ok? ==> |r.rest| < |input|
    decreases |input|, 0
  {
    match t
    case Submessage(fields) =>
      (match GetVarint32(input)
       case Fail => Fail
       case Ok(size, rest) =>
         match Take(rest, size)
         case Fail => Fail
         case Ok(part, rest') =>
           var m := if current.Sub? && |current.m| == |fields| then current.m else BlankMessage(fields);
           match DecodeLoop(fields, m, {}, part)
           case None => Fail
           case Some(m') => Ok(Sub(m'), rest'))
    case BytesUpTo(_) => DecodeBlob(t, input)
    case StringIn(_) => DecodeBlob(t, input)
    case FixedBytes(_) => DecodeBlob(t, input)
    case _ => DecodeNumber(t, input)
  }

  /** A packed array: values until the substream is used up or the array is full. */
  function DecodePacked(t: LType, items: seq<Value>, max: nat, part: Bytes): Option<seq<Value>>
    requires Packable(t)
    decreases |part|
  {
    if part == [] then Some(items)
    else if |items| >= max then None
    else
      match DecodeNumber(t, part)
      case Fail => None
      case Ok(v, rest) => DecodePacked(t, items + [v], max, rest)
  }

  /** Setting a member of a oneof takes the others out. */
  function Choose(fields: seq<Field>, m: Message, i: nat): (m': Message)
    requires |m| == |fields| && i < |fields|
    ensures |m'| == |m|
  {
    if !fields[i].rule.OneOf? then m
    else seq(|m|, j requires 0 <= j < |m| => if j != i && fields[j].rule == fields[i].rule then [] else m[j])
  }

  /** The value an item of field `i` is decoded over. */
  function Current(f: Field, items: seq<Value>): Value {
    if items == [] || f.rule.Repeated? || (f.rule.OneOf? && f.ltype.Submessage?) then Blank(f.ltype) else items[0]
  }

  function DecodeField(fields: seq<Field>, m: Message, i: nat, wire: nat, input: Bytes): (r: Parsed<Message>)
    requires |m| == |fields| && i < |fields|
    ensures r.Ok? ==> |r.value| == |m| && |r.rest| < |input|
    decreases |input|, 1
  {
    var f := fields[i];
    if f.rule.Repeated? && wire == WT_STRING && Packable(f.ltype) then
      match GetVarint32(input)
      case Fail => Fail
      case Ok(size, rest) =>
        match Take(rest, size)
        case Fail => Fail
        case Ok(part, rest') =>
          match DecodePacked(f.ltype, m[i], f.rule.max, part)
          case None => Fail
          case Some(items) => Ok(m[i := items], rest')
    else if f.rule.Repeated? && |m[i]| >= f.rule.max then Fail
    else
      match DecodeValue(f.ltype, Current(f, m[i]), input)
      case Fail => Fail
      case Ok(v, rest) => Ok(Choose(fields, m, i)[i := if f.rule.Repeated? then m[i] + [v] else [v]], rest)
  }

  function SkipVarint(input: Bytes): (r: Option<Bytes>)
    ensures r.Some? ==> |r.value| <= |input|
  {
    if input == [] then None else if input[0] < 128 then Some(input[1..]) else SkipVarint(input[1..])
  }

  function SkipField(wire: nat, input: Bytes): (r: Option<Bytes>)
    ensures r.Some? ==> |r.value| <= |input|
  {
    if wire == WT_VARINT then SkipVarint(input)
    else if wire == WT_64BIT then if |input| < 8 then None else Some(input[8..])
    else if wire == WT_32BIT then if |input| < 4 then None else Some(input[4..])
    else if wire == WT_STRING then
      match GetVarint32(input)
      case Fail => None
      case Ok(size, rest) => if size <= |rest| then Some(rest[size..]) else None
    else None
  }

  function Find(fields: seq<Field>, tag: nat): (i: nat)
    ensures i <= |fields|
    ensures i < |fields| ==> fields[i].tag == tag
    ensures forall j :: 0 <= j < i ==> fields[j].tag != tag
  {
    if fields == [] || fields[0].tag == tag then 0 else 1 + Find(fields[1..], tag)
  }

  predicate RequiredSeen(fields: seq<Field>, seen: set<nat>) {
    forall i: nat :: i < |fields| && fields[i].rule.Required? ==> i in seen
  }

  /** pb_decode_noinit: fields in any order until the stream ends, a zero tag, or an unfinished tag at
      the very end. */
  function DecodeLoop(fields: seq<Field>, m: Message, seen: set<nat>, input: Bytes): (r: Option<Message>)
    requires |m| == |fields|
    decreases |input|, 2
  {
    var done := if RequiredSeen(fields, seen) then Some(m) else None;
    if input == [] then done
    else
      match GetVarint32(input)
      case Fail => if |input| <= 5 then done else None
      case Ok(key, rest) =>
        if key == 0 then done
        else
          var i := Find(fields, key / 8);
          if i == |fields| then
            match SkipField(key % 8, rest) case None => None case Some(rest') => DecodeLoop(fields, m, seen, rest')
          else
            match DecodeField(fields, m, i, key % 8, rest)
            case Fail => None
            case Ok(m', rest') => DecodeLoop(fields, m', seen + {i}, rest')
  }

  function Decode(fields: seq<Field>, input: Bytes): Option<Message> {
    DecodeLoop(fields, BlankMessage(fields), {}, input)
  }
}
