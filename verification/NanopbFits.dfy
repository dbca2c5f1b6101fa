/** Whatever bytes a decoder is given, what it delivers fits the C struct: no array or string is
    overrun, numbers are in range, and a oneof has at most one member (pb_decode.c).
  */
module NanopbFits {
  import opened Keys
  import opened Coding
  import opened Nanopb

  // ---------- fitting a struct ----------

  /** Like `ValueOk`, but a decoded string may hold zero bytes. */
  predicate ValueFits(t: LType, v: Value)
    decreases t, 0
  {
    match t
    case Int(w) => v.Number? && SignedFits(v.n, w)
    case UInt(w) => v.Number? && 0 <= v.n < Range(w)
    case SInt(w) => v.Number? && SignedFits(v.n, w)
    case Fixed32Bits => v.Number? && 0 <= v.n < TWO32
    case Fixed64Bits => v.Number? && 0 <= v.n < TWO64
    case BytesUpTo(max) => v.Blob? && |v.b| <= max
    case StringIn(size) => v.Blob? && |v.b| < size
    case FixedBytes(n) => v.Blob? && |v.b| == n
    case Submessage(fields) => v.Sub? && MessageFits(fields, v.m)
  }

  predicate FieldFits(f: Field, items: seq<Value>)
    decreases f, 1
  {
    CountOk(f.rule, |items|) && forall j :: 0 <= j < |items| ==> ValueFits(f.ltype, items[j])
  }

  predicate MessageFits(fields: seq<Field>, m: Message)
    decreases fields, 1
  {
    |m| == |fields| && UnionsOk(fields, m) && forall i :: 0 <= i < |fields| ==> FieldFits(fields[i], m[i])
  }

  /** A struct during decoding: in required fields not yet seen only submessages must fit as well. */
  ghost predicate Fitting(fields: seq<Field>, m: Message, seen: set<nat>)
    decreases fields, 1
  {
    |m| == |fields| && UnionsOk(fields, m) && forall i: nat :: i < |fields| ==> FitsSoFar(fields[i], m[i], i in seen)
  }

  ghost predicate FitsSoFar(f: Field, items: seq<Value>, seen: bool)
    decreases f, 1
  {
    if seen || !f.rule.Required? then FieldFits(f, items) else |items| == 1 && CurrentOk(f.ltype, items[0])
  }

  /** What a value may be decoded over: a submessage is merged into what is there. */
  ghost predicate CurrentOk(t: LType, v: Value)
    decreases t, 0
  {
    match t
    case Submessage(fields) => v.Sub? && |v.m| == |fields| ==> Fitting(fields, v.m, {})
    case _ => true
  }

  // ---------- values ----------

  lemma {:induction false} FixedValueBound(b: Bytes)
    ensures FixedValue(b) < Pow(256, |b|)
  {
    if b == [] {
    } else {
      FixedValueBound(b[1..]);
    }
  }

  lemma NumberFits(t: LType, input: Bytes)
    requires Packable(t)
    ensures DecodeNumber(t, input).Ok? ==> ValueFits(t, DecodeNumber(t, input).value)
  {
    if t.Fixed32Bits? && |input| >= 4 {
      FixedValueBound(input[..4]);
      assert Pow(256, 4) == TWO32;
    }
    if t.Fixed64Bits? && |input| >= 8 {
      FixedValueBound(input[..8]);
      assert Pow(256, 8) == TWO64;
    }
  }

  lemma BlobFits(t: LType, input: Bytes)
    requires t.BytesUpTo? || t.StringIn? || t.FixedBytes?
    ensures DecodeBlob(t, input).Ok? ==> ValueFits(t, DecodeBlob(t, input).value)
  {
  }

  lemma {:induction false} PackedFits(f: Field, items: seq<Value>, max: nat, part: Bytes)
    requires Packable(f.ltype) && |items| <= max && forall j :: 0 <= j < |items| ==> ValueFits(f.ltype, items[j])
    ensures var r := DecodePacked(f.ltype, items, max, part);
      r.Some? ==> |r.value| <= max && forall j :: 0 <= j < |r.value| ==> ValueFits(f.ltype, r.value[j])
    decreases |part|
  {
    hide ValueFits, DecodeNumber;
    if part != [] && |items| < max {
      NumberFits(f.ltype, part);
      var v := DecodeNumber(f.ltype, part);
      if v.Ok? {
        PackedFits(f, items + [v.value], max, v.rest);
      }
    }
  }

  lemma {:induction false} BlankFitting(fields: seq<Field>)
    ensures Fitting(fields, BlankMessage(fields), {})
    decreases fields, 1
  {
    var m := BlankMessage(fields);
    forall i: nat | i < |fields| ensures FitsSoFar(fields[i], m[i], false) {
      BlankFieldFits(fields[i]);
    }
  }

  lemma {:induction false} BlankFieldFits(f: Field)
    ensures FitsSoFar(f, BlankItems(f), false)
    decreases f, 1
  {
    BlankIsOk(f.ltype);
  }

  lemma {:induction false} BlankIsOk(t: LType)
    ensures CurrentOk(t, Blank(t))
    decreases t, 0
  {
    if t.Submessage? {
      BlankFitting(t.fields);
    }
  }

  lemma {:induction false} FitsIsFitting(fields: seq<Field>, m: Message)
    requires MessageFits(fields, m)
    ensures Fitting(fields, m, {})
    decreases fields, 1
  {
    forall i: nat | i < |fields| ensures FitsSoFar(fields[i], m[i], false) {
      FieldIsFitting(fields[i], m[i]);
    }
  }

  lemma {:induction false} FieldIsFitting(f: Field, items: seq<Value>)
    requires FieldFits(f, items)
    ensures FitsSoFar(f, items, false)
    decreases f, 1
  {
    if f.rule.Required? {
      FitsIsOk(f.ltype, items[0]);
    }
  }

  lemma {:induction false} FitsIsOk(t: LType, v: Value)
    requires ValueFits(t, v)
    ensures CurrentOk(t, v)
    decreases t, 0
  {
    if t.Submessage? {
      FitsIsFitting(t.fields, v.m);
    }
  }

  // ---------- fields ----------

  /** A field's items after one more value. */
  function WithItem(f: Field, items: seq<Value>, v: Value): seq<Value> {
    if f.rule.Repeated? then items + [v] else [v]
  }

  lemma ItemFits(f: Field, items: seq<Value>, v: Value, seen: bool)
    requires FitsSoFar(f, items, seen) && ValueFits(f.ltype, v) && (f.rule.Repeated? ==> |items| < f.rule.max)
    ensures FieldFits(f, WithItem(f, items, v))
  {
  }

  lemma ChosenUnions(fields: seq<Field>, m: Message, i: nat, items: seq<Value>)
    requires |m| == |fields| && UnionsOk(fields, m) && i < |fields|
    ensures UnionsOk(fields, Choose(fields, m, i)[i := items])
  {
    var m' := Choose(fields, m, i)[i := items];
    forall j, k | 0 <= j < k < |fields| && fields[j].rule.OneOf? && fields[k].rule == fields[j].rule
      ensures m'[j] == [] || m'[k] == []
    {
      assert m[j] == [] || m[k] == [];
    }
  }

  lemma PlainUnions(fields: seq<Field>, m: Message, i: nat, items: seq<Value>)
    requires |m| == |fields| && UnionsOk(fields, m) && i < |fields| && fields[i].rule.Repeated?
    ensures UnionsOk(fields, m[i := items])
  {
    assert Choose(fields, m, i) == m;
    ChosenUnions(fields, m, i, items);
  }

  lemma FieldReplaced(fields: seq<Field>, m: Message, seen: set<nat>, i: nat, items: seq<Value>)
    requires Fitting(fields, m, seen) && i < |fields| && FieldFits(fields[i], items)
    ensures Fitting(fields, Choose(fields, m, i)[i := items], seen + {i})
  {
    hide UnionsOk;
    var m' := Choose(fields, m, i)[i := items];
    ChosenUnions(fields, m, i, items);
    forall j: nat | j < |fields| ensures FitsSoFar(fields[j], m'[j], j in seen + {i}) {
      assert FitsSoFar(fields[j], m[j], j in seen);
    }
  }

  // ---------- the decoder ----------

  lemma {:induction false} DecodedValueFits(t: LType, current: Value, input: Bytes)
    requires CurrentOk(t, current)
    ensures DecodeValue(t, current, input).Ok? ==> ValueFits(t, DecodeValue(t, current, input).value)
    decreases |input|, 0
  {
    match t
    case Submessage(fields) =>
      var size := GetVarint32(input);
      if size.Ok? {
        var part := Take(size.rest, size.value);
        if part.Ok? {
          var m := if current.Sub? && |current.m| == |fields| then current.m else BlankMessage(fields);
          BlankFitting(fields);
          DecodedFits(fields, m, {}, part.value);
        }
      }
    case BytesUpTo(_) => BlobFits(t, input);
    case StringIn(_) => BlobFits(t, input);
    case FixedBytes(_) => BlobFits(t, input);
    case _ => NumberFits(t, input);
  }

  lemma {:induction false} DecodedFieldFits(fields: seq<Field>, m: Message, seen: set<nat>, i: nat, wire: nat,
                                            input: Bytes)
    requires Fitting(fields, m, seen) && i < |fields|
    ensures DecodeField(fields, m, i, wire, input).Ok? ==>
      Fitting(fields, DecodeField(fields, m, i, wire, input).value, seen + {i})
    decreases |input|, 1
  {
    hide Fitting, ValueFits, DecodePacked, DecodeValue, FieldFits, Choose;
    var f := fields[i];
    SoFar(fields, m, seen, i);
    if f.rule.Repeated? && wire == WT_STRING && Packable(f.ltype) {
      var size := GetVarint32(input);
      if size.Ok? && Take(size.rest, size.value).Ok? {
        PackedFieldFits(fields, m, seen, i, Take(size.rest, size.value).value);
      }
    } else if f.rule.Repeated? ==> |m[i]| < f.rule.max {
      CurrentIsOk(f, m[i], i in seen);
      DecodedValueFits(f.ltype, Current(f, m[i]), input);
      var v := DecodeValue(f.ltype, Current(f, m[i]), input);
      if v.Ok? {
        ItemFits(f, m[i], v.value, i in seen);
        FieldReplaced(fields, m, seen, i, WithItem(f, m[i], v.value));
      }
    }
  }

  lemma SoFar(fields: seq<Field>, m: Message, seen: set<nat>, i: nat)
    requires Fitting(fields, m, seen) && i < |fields|
    ensures |m| == |fields| && FitsSoFar(fields[i], m[i], i in seen)
  {
  }

  lemma CurrentIsOk(f: Field, items: seq<Value>, seen: bool)
    requires FitsSoFar(f, items, seen)
    ensures CurrentOk(f.ltype, Current(f, items))
  {
    BlankIsOk(f.ltype);
    if items != [] && (seen || !f.rule.Required?) {
      FitsIsOk(f.ltype, items[0]);
    }
  }

  lemma PackedFieldFits(fields: seq<Field>, m: Message, seen: set<nat>, i: nat, part: Bytes)
    requires Fitting(fields, m, seen) && i < |fields| && fields[i].rule.Repeated? && Packable(fields[i].ltype)
    ensures var r := DecodePacked(fields[i].ltype, m[i], fields[i].rule.max, part);
      r.Some? ==> Fitting(fields, m[i := r.value], seen + {i})
  {
    hide ValueFits, DecodePacked;
    var f := fields[i];
    assert FitsSoFar(f, m[i], i in seen);
    PackedFits(f, m[i], f.rule.max, part);
    var r := DecodePacked(f.ltype, m[i], f.rule.max, part);
    if r.Some? {
      FieldReplaced(fields, m, seen, i, r.value);
      assert Choose(fields, m, i) == m;
    }
  }

  lemma AllSeen(fields: seq<Field>, m: Message, seen: set<nat>)
    requires Fitting(fields, m, seen) && RequiredSeen(fields, seen)
    ensures MessageFits(fields, m)
  {
    forall i | 0 <= i < |fields| ensures FieldFits(fields[i], m[i]) {
      assert FitsSoFar(fields[i], m[i], i in seen);
    }
  }

  /** Any successful decoding, of any bytes, gives a message that fits its descriptor. */
  lemma {:induction false} DecodedFits(fields: seq<Field>, m: Message, seen: set<nat>, input: Bytes)
    requires Fitting(fields, m, seen)
    ensures DecodeLoop(fields, m, seen, input).Some? ==>
      MessageFits(fields, DecodeLoop(fields, m, seen, input).value)
    decreases |input|, 2
  {
    hide Fitting, MessageFits, DecodeField, SkipField, RequiredSeen;
    SameLength(fields, m, seen);
    if RequiredSeen(fields, seen) {
      AllSeen(fields, m, seen);
    }
    var key := GetVarint32(input);
    if input != [] && key.Ok? && key.value != 0 {
      var i := Find(fields, key.value / 8);
      if i == |fields| {
        var rest := SkipField(key.value % 8, key.rest);
        if rest.Some? {
          DecodedFits(fields, m, seen, rest.value);
        }
      } else {
        var field := DecodeField(fields, m, i, key.value % 8, key.rest);
        DecodedFieldFits(fields, m, seen, i, key.value % 8, key.rest);
        if field.Ok? {
          DecodedFits(fields, field.value, seen + {i}, field.rest);
        }
      }
    }
  }

  lemma SameLength(fields: seq<Field>, m: Message, seen: set<nat>)
    requires Fitting(fields, m, seen)
    ensures |m| == |fields|
  {
  }
}
