/** Internal keys as bytes (db/dbformat.h): the user key, then the packed sequence number and type.
    Their positions under the internal comparator embed in the reals, so that blocks, which compare
    byte strings by position, can hold internal keys.
  */
module KeyBytes {
  import opened Keys
  import opened Coding
  import opened Separators

  function Encode(k: RawKey): (b: Bytes)
    ensures |b| == |k.user| + 8
  {
    k.user + Fixed64(Tag(Abs(k)))
  }

  /** ParseInternalKey; strings too short for a tag are no internal keys and stand for themselves. */
  function Parse(b: Bytes): RawKey {
    if |b| < 8 then RawKey(b, 0, Deletion)
    else
      var tag := FixedValue(b[|b| - 8..]);
      RawKey(b[..|b| - 8], tag / 256, if tag % 256 == 0 then Deletion else Value)
  }

  lemma RoundTrip(k: RawKey)
    requires k.sequence <= MAX_SEQUENCE
    ensures Parse(Encode(k)) == k
  {
    var b, tag := Encode(k), Tag(Abs(k));
    assert b[..|b| - 8] == k.user && b[|b| - 8..] == Fixed64(tag);
    Fixed64RoundTrip(tag);
  }

  // ---------- positions ----------

  /** Larger tags come first. */
  function TagPart(tag: nat): real {
    (TWO64 - 1 - tag) as real / TWO64 as real
  }

  lemma TagPartOrder(a: nat, b: nat)
    requires a < TWO64 && b < TWO64
    ensures 0.0 <= TagPart(a) < 1.0
    ensures TagPart(a) < TagPart(b) <==> a > b
  {
  }

  /** The position of a user key, with `part` of the room before its next larger neighbour added. */
  function Between(user: Bytes, part: real): (r: real)
    requires 0.0 <= part < 1.0
    ensures 0.0 <= r < 1.0
    ensures user != [] ==> r >= 1.0 / 257.0
  {
    if user == [] then part / 257.0 else (user[0] as real + 1.0 + Between(user[1..], part)) / 257.0
  }

  lemma {:induction false} UserDecides(a: Bytes, x: real, b: Bytes, y: real)
    requires 0.0 <= x < 1.0 && 0.0 <= y < 1.0 && CompareBytes(a, b) < 0
    ensures Between(a, x) < Between(b, y)
  {
    if a != [] && a[0] == b[0] {
      UserDecides(a[1..], x, b[1..], y);
    }
  }

  lemma {:induction false} PartDecides(a: Bytes, x: real, y: real)
    requires 0.0 <= x < 1.0 && 0.0 <= y < 1.0
    ensures Between(a, x) < Between(a, y) <==> x < y
  {
    if a == [] {
    } else {
      PartDecides(a[1..], x, y);
    }
  }

  /** The position of an internal key's bytes under the internal comparator. */
  function Rank(b: Bytes): real {
    var k := Parse(b);
    if k.sequence > MAX_SEQUENCE then 0.0 else RankOf(k)
  }

  function RankOf(k: RawKey): real
    requires k.sequence <= MAX_SEQUENCE
  {
    TagPartOrder(Tag(Abs(k)), 0);
    Between(k.user, TagPart(Tag(Abs(k))))
  }

  lemma RankOfOrder(a: RawKey, b: RawKey)
    requires a.sequence <= MAX_SEQUENCE && b.sequence <= MAX_SEQUENCE
    ensures RankOf(a) < RankOf(b) <==> Less(Abs(a), Abs(b))
  {
    var x, y := TagPart(Tag(Abs(a))), TagPart(Tag(Abs(b)));
    TagPartOrder(Tag(Abs(a)), Tag(Abs(b)));
    TagPartOrder(Tag(Abs(b)), Tag(Abs(a)));
    BytewiseEmbedsInReals(a.user, b.user);
    BytewiseEmbedsInReals(b.user, a.user);
    if CompareBytes(a.user, b.user) < 0 {
      UserDecides(a.user, x, b.user, y);
    } else if CompareBytes(b.user, a.user) < 0 {
      UserDecides(b.user, y, a.user, x);
    } else {
      PartDecides(a.user, x, y);
    }
  }

  /** The positions order the bytes of internal keys as the internal comparator does. */
  lemma RankIsOrder(a: RawKey, b: RawKey)
    requires a.sequence <= MAX_SEQUENCE && b.sequence <= MAX_SEQUENCE
    ensures Rank(Encode(a)) < Rank(Encode(b)) <==> Less(Abs(a), Abs(b))
  {
    RoundTrip(a);
    RoundTrip(b);
    RankOfOrder(a, b);
  }
}
