/** A decoder must accept fields in any order and skip fields it does not know (Protocol Buffers
    Encoding document): whatever pieces a message is written in, as long as the items of each field
    come in order, it decodes to the same message.
  */
module NanopbAnyOrder {
  import opened Keys
  import opened Coding
  import opened Nanopb
  import opened NanopbRoundTrip
  import opened Sequences

  // ---------- messages in pieces ----------

  /** One tagged piece of a message: the next item of a field, in any bytes that decode to it; a whole
      packed array; or a field the descriptor does not have. */
  datatype Piece = Item(k: nat, body: Bytes) | Array(k: nat) | Unknown(tag: nat, wire: nat, body: Bytes)

  /** The decoder skips exactly `body`, whatever follows. */
  ghost predicate Skips(wire: nat, body: Bytes) {
    forall rest :: SkipField(wire, body + rest) == Some(rest)
  }

  ghost predicate PieceOk(fields: seq<Field>, m: Message, counts: seq<nat>, p: Piece)
    requires MessageOk(fields, m) && CountsOk(m, counts)
  {
    match p
    case Item(k, body) =>
      k < |fields| && !Packed(fields[k]) && counts[k] < |m[k]| && ReadsAs(fields[k].ltype, body, m[k][counts[k]])
    case Array(k) =>
      k < |fields| && Packed(fields[k]) && counts[k] == 0 && m[k] != [] &&
      FieldOk(fields[k], m[k]) && |EncodeBare(fields[k].ltype, m[k])| < TWO32
    case Unknown(tag, wire, body) =>
      0 < tag && tag * 8 + 7 < TWO32 && wire < 8 && Find(fields, tag) == |fields| && Skips(wire, body)
  }

  ghost function PieceBytes(fields: seq<Field>, m: Message, counts: seq<nat>, p: Piece): Bytes
    requires MessageOk(fields, m) && CountsOk(m, counts) && PieceOk(fields, m, counts, p)
  {
    match p
    case Item(k, body) => EncodeTag(fields[k].tag, WireType(fields[k].ltype)) + body
    case Array(k) => EncodeField(fields[k], m[k])
    case Unknown(tag, wire, body) => EncodeTag(tag, wire) + body
  }

  /** How many items of each field are decoded after a piece. */
  ghost function After(fields: seq<Field>, m: Message, counts: seq<nat>, p: Piece): (r: seq<nat>)
    requires MessageOk(fields, m) && CountsOk(m, counts) && PieceOk(fields, m, counts, p)
    ensures CountsOk(m, r)
  {
    match p
    case Item(k, _) => counts[k := counts[k] + 1]
    case Array(k) => counts[k := |m[k]|]
    case Unknown(_, _, _) => counts
  }

  ghost predicate Complete(m: Message, counts: seq<nat>) {
    |counts| == |m| && forall i :: 0 <= i < |m| ==> counts[i] == |m[i]|
  }

  /** The pieces may come one after the other: the items of one field in order. */
  ghost predicate PiecesFit(fields: seq<Field>, m: Message, counts: seq<nat>, pieces: seq<Piece>)
    requires MessageOk(fields, m) && CountsOk(m, counts)
    decreases |pieces|
  {
    pieces != [] ==>
      PieceOk(fields, m, counts, pieces[0]) && PiecesFit(fields, m, After(fields, m, counts, pieces[0]), pieces[1..])
  }

  ghost function CountsAfter(fields: seq<Field>, m: Message, counts: seq<nat>, pieces: seq<Piece>): (r: seq<nat>)
    requires MessageOk(fields, m) && CountsOk(m, counts) && PiecesFit(fields, m, counts, pieces)
    ensures CountsOk(m, r)
    decreases |pieces|
  {
    if pieces == [] then counts else CountsAfter(fields, m, After(fields, m, counts, pieces[0]), pieces[1..])
  }

  /** The pieces give every item of every field, the items of one field in order. */
  ghost predicate PiecesOk(fields: seq<Field>, m: Message, counts: seq<nat>, pieces: seq<Piece>)
    requires MessageOk(fields, m) && CountsOk(m, counts)
  {
    PiecesFit(fields, m, counts, pieces) && Complete(m, CountsAfter(fields, m, counts, pieces))
  }

  ghost function WireBytes(fields: seq<Field>, m: Message, counts: seq<nat>, pieces: seq<Piece>): Bytes
    requires MessageOk(fields, m) && CountsOk(m, counts) && PiecesFit(fields, m, counts, pieces)
    decreases |pieces|
  {
    if pieces == [] then []
    else
      PieceBytes(fields, m, counts, pieces[0]) +
      WireBytes(fields, m, After(fields, m, counts, pieces[0]), pieces[1..])
  }

  // ---------- decoding the pieces ----------

  /** A key of an unknown field in front: the field is skipped. */
  lemma SkipStep(fields: seq<Field>, m: Message, seen: set<nat>, tag: nat, wire: nat, body: Bytes, rest: Bytes)
    requires |m| == |fields| && 0 < tag && tag * 8 + 7 < TWO32 && wire < 8 && Find(fields, tag) == |fields|
    requires Skips(wire, body)
    ensures DecodeLoop(fields, m, seen, EncodeTag(tag, wire) + (body + rest)) == DecodeLoop(fields, m, seen, rest)
  {
    KeyReads(tag, wire, body + rest);
    assert SkipField(wire, body + rest) == Some(rest);
    SkipLoop(fields, m, seen, EncodeTag(tag, wire) + (body + rest), tag * 8 + wire, body + rest, rest);
  }

  lemma SkipLoop(fields: seq<Field>, m: Message, seen: set<nat>, input: Bytes, key: nat, after: Bytes, rest: Bytes)
    requires |m| == |fields| && input != [] && GetVarint32(input) == Ok(key, after) && key != 0
    requires Find(fields, key / 8) == |fields| && SkipField(key % 8, after) == Some(rest)
    ensures DecodeLoop(fields, m, seen, input) == DecodeLoop(fields, m, seen, rest)
  {
  }

  ghost function SeenAfter(seen: set<nat>, p: Piece): set<nat> {
    if p.Unknown? then seen else seen + {p.k}
  }

  lemma PieceStep(fields: seq<Field>, m: Message, counts: seq<nat>, seen: set<nat>, p: Piece, rest: Bytes)
    requires DescriptorOk(fields) && MessageOk(fields, m) && CountsOk(m, counts) && PieceOk(fields, m, counts, p)
    ensures DecodeLoop(fields, Got(fields, m, counts), seen, PieceBytes(fields, m, counts, p) + rest) ==
            DecodeLoop(fields, Got(fields, m, After(fields, m, counts, p)), SeenAfter(seen, p), rest)
  {
    hide DecodeLoop, Got, EncodeTag, WireType, EncodeField, ReadsAs, Skips;
    match p
    case Item(k, body) =>
      Associative(EncodeTag(fields[k].tag, WireType(fields[k].ltype)), body, rest);
      ItemStep(fields, m, counts, seen, k, body, rest);
    case Array(k) =>
      assert FieldTypeOk(fields[k]);
      PackedStep(fields, m, counts, seen, k, rest);
    case Unknown(tag, wire, body) =>
      Associative(EncodeTag(tag, wire), body, rest);
      SkipStep(fields, Got(fields, m, counts), seen, tag, wire, body, rest);
  }

  /** The fields seen are those that have an item. */
  ghost predicate SeenOk(counts: seq<nat>, seen: set<nat>) {
    forall i: nat :: i < |counts| ==> (counts[i] > 0 <==> i in seen)
  }

  ghost predicate NoneMissing(fields: seq<Field>, counts: seq<nat>) {
    forall i :: 0 <= i < |fields| && i < |counts| && fields[i].rule.Required? ==> counts[i] > 0
  }

  /** Decoding any pieces gives what they add up to, or fails if a required field is missing. */
  lemma {:induction false} PiecesDecode(fields: seq<Field>, m: Message, counts: seq<nat>, seen: set<nat>,
                                        pieces: seq<Piece>)
    requires DescriptorOk(fields) && MessageOk(fields, m) && CountsOk(m, counts) && SeenOk(counts, seen)
    requires PiecesFit(fields, m, counts, pieces)
    ensures var end := CountsAfter(fields, m, counts, pieces);
      DecodeLoop(fields, Got(fields, m, counts), seen, WireBytes(fields, m, counts, pieces)) ==
      if NoneMissing(fields, end) then Some(Got(fields, m, end)) else None
    decreases |pieces|
  {
    hide Got, DescriptorOk, FieldOk, PieceOk;
    if pieces == [] {
      NothingLeft(fields, Got(fields, m, counts), counts, seen);
    } else {
      var p, counts' := pieces[0], After(fields, m, counts, pieces[0]);
      PieceStep(fields, m, counts, seen, p, WireBytes(fields, m, counts', pieces[1..]));
      StillSeen(fields, m, counts, seen, p);
      PiecesDecode(fields, m, counts', SeenAfter(seen, p), pieces[1..]);
    }
  }

  lemma NothingLeft(fields: seq<Field>, got: Message, counts: seq<nat>, seen: set<nat>)
    requires |got| == |fields| == |counts| && SeenOk(counts, seen)
    ensures DecodeLoop(fields, got, seen, []) == if NoneMissing(fields, counts) then Some(got) else None
  {
    assert RequiredSeen(fields, seen) <==> NoneMissing(fields, counts);
  }

  lemma StillSeen(fields: seq<Field>, m: Message, counts: seq<nat>, seen: set<nat>, p: Piece)
    requires MessageOk(fields, m) && CountsOk(m, counts) && PieceOk(fields, m, counts, p) && SeenOk(counts, seen)
    ensures SeenOk(After(fields, m, counts, p), SeenAfter(seen, p))
  {
    hide ReadsAs, FieldOk, Skips;
  }

  function NoItems(m: Message): (r: seq<nat>)
    ensures CountsOk(m, r)
  {
    seq(|m|, i => 0)
  }

  /** Any order of a message's pieces, with unknown fields anywhere among them, decodes to the message. */
  lemma AnyOrderDecodes(fields: seq<Field>, m: Message, pieces: seq<Piece>)
    requires DescriptorOk(fields) && MessageOk(fields, m) && PiecesOk(fields, m, NoItems(m), pieces)
    ensures Decode(fields, WireBytes(fields, m, NoItems(m), pieces)) == Some(m)
  {
    var end := CountsAfter(fields, m, NoItems(m), pieces);
    SomePiecesDecode(fields, m, pieces);
    GotAll(fields, m, end);
    forall i | 0 <= i < |fields| && fields[i].rule.Required? ensures end[i] > 0 {
      assert FieldOk(fields[i], m[i]);
    }
  }

  /** Any pieces of a message decode to the fields they give, and not at all if a required field is
      missing. */
  lemma SomePiecesDecode(fields: seq<Field>, m: Message, pieces: seq<Piece>)
    requires DescriptorOk(fields) && MessageOk(fields, m) && PiecesFit(fields, m, NoItems(m), pieces)
    ensures var end := CountsAfter(fields, m, NoItems(m), pieces);
      Decode(fields, WireBytes(fields, m, NoItems(m), pieces)) ==
      if NoneMissing(fields, end) then Some(Got(fields, m, end)) else None
  {
    assert Got(fields, m, NoItems(m)) == BlankMessage(fields);
    PiecesDecode(fields, m, NoItems(m), {}, pieces);
  }

  lemma PartDecodes(fields: seq<Field>, m: Message, part: Bytes, rest: Bytes)
    requires Decode(fields, part) == Some(m) && |part| < TWO32
    ensures DecodeValue(Submessage(fields), Blank(Submessage(fields)), PutSlice(part) + rest) == Ok(Sub(m), rest)
  {
    SliceSplits(part, rest);
  }

  /** The bytes of a submessage written in any order serve as an item of the message around it. */
  lemma SubmessageReadsAs(fields: seq<Field>, m: Message, pieces: seq<Piece>)
    requires DescriptorOk(fields) && MessageOk(fields, m) && PiecesOk(fields, m, NoItems(m), pieces)
    requires |WireBytes(fields, m, NoItems(m), pieces)| < TWO32
    ensures ReadsAs(Submessage(fields), PutSlice(WireBytes(fields, m, NoItems(m), pieces)), Sub(m))
  {
    var part := WireBytes(fields, m, NoItems(m), pieces);
    AnyOrderDecodes(fields, m, pieces);
    forall rest
      ensures DecodeValue(Submessage(fields), Blank(Submessage(fields)), PutSlice(part) + rest) == Ok(Sub(m), rest)
    {
      PartDecodes(fields, m, part, rest);
    }
  }

  // ---------- inserting and reordering ----------

  /** An unknown field may be inserted anywhere. */
  lemma {:induction false} InsertUnknown(fields: seq<Field>, m: Message, counts: seq<nat>, pieces: seq<Piece>, i: nat,
                                         u: Piece)
    requires MessageOk(fields, m) && CountsOk(m, counts) && PiecesFit(fields, m, counts, pieces) && i <= |pieces|
    requires u.Unknown? && PieceOk(fields, m, counts, u)
    ensures PiecesFit(fields, m, counts, pieces[..i] + [u] + pieces[i..])
    ensures CountsAfter(fields, m, counts, pieces[..i] + [u] + pieces[i..]) == CountsAfter(fields, m, counts, pieces)
    ensures PiecesOk(fields, m, counts, pieces) ==> PiecesOk(fields, m, counts, pieces[..i] + [u] + pieces[i..])
    decreases i
  {
    hide MessageOk, CountsOk, FieldOk;
    var more := pieces[..i] + [u] + pieces[i..];
    if i == 0 {
      assert more[1..] == pieces;
    } else {
      var counts' := After(fields, m, counts, pieces[0]);
      InsertUnknown(fields, m, counts', pieces[1..], i - 1, u);
      assert more[1..] == pieces[1..][..i - 1] + [u] + pieces[1..][i - 1..];
    }
  }

  /** Neighbouring pieces of different fields may change places. */
  lemma {:induction false} SwapNeighbours(fields: seq<Field>, m: Message, counts: seq<nat>, pieces: seq<Piece>, i: nat)
    requires MessageOk(fields, m) && CountsOk(m, counts) && PiecesFit(fields, m, counts, pieces) && i + 1 < |pieces|
    requires pieces[i].Unknown? || pieces[i + 1].Unknown? || pieces[i].k != pieces[i + 1].k
    ensures var swapped := pieces[i := pieces[i + 1]][i + 1 := pieces[i]];
      PiecesFit(fields, m, counts, swapped) &&
      CountsAfter(fields, m, counts, swapped) == CountsAfter(fields, m, counts, pieces) &&
      (PiecesOk(fields, m, counts, pieces) ==> PiecesOk(fields, m, counts, swapped))
    decreases i
  {
    var swapped := pieces[i := pieces[i + 1]][i + 1 := pieces[i]];
    if i == 0 {
      SwapFirst(fields, m, counts, pieces[0], pieces[1], pieces[2..]);
      assert pieces[1..][0] == pieces[1] && pieces[1..][1..] == pieces[2..];
      assert swapped[1..][0] == pieces[0] && swapped[1..][1..] == pieces[2..];
    } else {
      var counts' := After(fields, m, counts, pieces[0]);
      SwapNeighbours(fields, m, counts', pieces[1..], i - 1);
      assert swapped[1..] == pieces[1..][i - 1 := pieces[1..][i]][i := pieces[1..][i - 1]];
    }
  }

  lemma SwapFirst(fields: seq<Field>, m: Message, counts: seq<nat>, p: Piece, q: Piece, rest: seq<Piece>)
    requires MessageOk(fields, m) && CountsOk(m, counts) && PieceOk(fields, m, counts, p)
    requires p.Unknown? || q.Unknown? || p.k != q.k
    requires PieceOk(fields, m, After(fields, m, counts, p), q)
    ensures PieceOk(fields, m, counts, q) && PieceOk(fields, m, After(fields, m, counts, q), p)
    ensures After(fields, m, After(fields, m, counts, q), p) == After(fields, m, After(fields, m, counts, p), q)
  {
    hide ReadsAs, Skips, PieceOk;
    OnlyItsCount(fields, m, counts, After(fields, m, counts, p), q);
    OnlyItsCount(fields, m, counts, After(fields, m, counts, q), p);
  }

  /** Whether a piece may come next depends on the count of its own field only. */
  lemma OnlyItsCount(fields: seq<Field>, m: Message, counts: seq<nat>, counts': seq<nat>, p: Piece)
    requires MessageOk(fields, m) && CountsOk(m, counts) && CountsOk(m, counts')
    requires p.Unknown? || (p.k < |fields| ==> counts[p.k] == counts'[p.k])
    ensures PieceOk(fields, m, counts, p) <==> PieceOk(fields, m, counts', p)
  {
    hide ReadsAs, Skips, FieldOk;
  }

  // ---------- unknown fields ----------

  /** Every well-formed value of an unknown field is skipped: varints, fixed-width numbers, slices. */
  lemma UnknownValuesSkip(n: nat, word: nat, slice: Bytes)
    requires n < TWO64 && |slice| < TWO32
    ensures Skips(WT_VARINT, PutVarint(n)) && Skips(WT_STRING, PutSlice(slice))
    ensures Skips(WT_32BIT, Fixed32(word)) && Skips(WT_64BIT, Fixed64(word))
  {
    forall rest ensures SkipField(WT_VARINT, PutVarint(n) + rest) == Some(rest) {
      VarintSkips(n, rest);
    }
    forall rest ensures SkipField(WT_STRING, PutSlice(slice) + rest) == Some(rest) {
      SliceSplits(slice, rest);
      assert (slice + rest)[|slice|..] == rest;
    }
    forall rest ensures SkipField(WT_32BIT, Fixed32(word) + rest) == Some(rest) {
      assert (Fixed32(word) + rest)[4..] == rest;
    }
    forall rest ensures SkipField(WT_64BIT, Fixed64(word) + rest) == Some(rest) {
      assert (Fixed64(word) + rest)[8..] == rest;
    }
  }

  lemma {:induction false} VarintSkips(n: nat, rest: Bytes)
    ensures SkipVarint(PutVarint(n) + rest) == Some(rest)
    decreases n
  {
    if n < 128 {
      assert (PutVarint(n) + rest)[1..] == rest;
    } else {
      var tail := PutVarint(n / 128);
      VarintSkips(n / 128, rest);
      assert PutVarint(n) + rest == [n % 128 + 128] + (tail + rest);
      assert (PutVarint(n) + rest)[1..] == tail + rest;
    }
  }
}
