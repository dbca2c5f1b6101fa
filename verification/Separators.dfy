/** Shortened index keys (util/comparator.cc, db/dbformat.cc): between two neighbouring blocks the
    table's index may hold any key that separates them; these functions pick a short one.
  */
module Separators {
  import opened Keys

  // ---------- the bytewise comparator ----------

  /** Strings that first differ at `d` compare as their bytes there do. */
  lemma {:induction false} DifferAt(a: Bytes, b: Bytes, d: nat)
    requires d < |a| && d < |b| && a[..d] == b[..d] && a[d] < b[d]
    ensures CompareBytes(a, b) < 0
    decreases d
  {
    if d == 0 {
    } else {
      assert a[0] == a[..d][0] && b[0] == b[..d][0];
      assert a[1..][..d - 1] == a[..d][1..] && b[1..][..d - 1] == b[..d][1..];
      DifferAt(a[1..], b[1..], d - 1);
    }
  }

  /** Start and limit first differ at `d`, and there is a byte value in between. */
  predicate RoomAt(start: Bytes, limit: Bytes, d: nat) {
    d < |start| && d < |limit| && start[..d] == limit[..d] && start[d] as int + 1 < limit[d] as int
  }

  lemma RoomIsUnique(start: Bytes, limit: Bytes, d: nat, e: nat)
    requires d <= |start| && d <= |limit| && start[..d] == limit[..d] && d != e
    requires d < |start| && d < |limit| ==> start[d] != limit[d]
    ensures !RoomAt(start, limit, e)
  {
    if e < d {
      assert start[e] == start[..d][e] && limit[e] == limit[..d][e];
    } else if e < |start| && e < |limit| {
      assert start[d] == start[..e][d] && limit[d] == limit[..e][d];
    }
  }

  /** A separator is the start itself or a shorter string strictly between start and limit. */
  method FindShortestSeparator(start: Bytes, limit: Bytes) returns (r: Bytes)
    ensures r == start || (|r| <= |start| && CompareBytes(start, r) < 0 && CompareBytes(r, limit) < 0)
    ensures |r| <= |start|
    ensures r == start <==> forall d: nat :: !RoomAt(start, limit, d)
    ensures forall d: nat :: RoomAt(start, limit, d) ==> r == start[..d] + [start[d] + 1]
  {
    var minLength := if |start| < |limit| then |start| else |limit|;
    var diff := 0;
    while diff < minLength && start[diff] == limit[diff]
      invariant diff <= minLength && start[..diff] == limit[..diff]
    {
      diff := diff + 1;
    }
    r := start;
    forall d: nat | d != diff ensures !RoomAt(start, limit, d) {
      RoomIsUnique(start, limit, diff, d);
    }
    if diff < minLength {
      var byte := start[diff] as int;
      if byte < 0xff && byte + 1 < limit[diff] {
        r := start[..diff] + [byte + 1];
        assert RoomAt(start, limit, diff) && r[diff] != start[diff];
        assert r[..diff] == start[..diff] == limit[..diff];
        DifferAt(start, r, diff);
        DifferAt(r, limit, diff);
      }
    }
  }

  /** A short successor is the key itself or a string after it that is no longer. */
  method FindShortSuccessor(key: Bytes) returns (r: Bytes)
    ensures r == key || CompareBytes(key, r) < 0
    ensures |r| <= |key|
    ensures r == key <==> forall i :: 0 <= i < |key| ==> key[i] == 0xff
    ensures forall i :: 0 <= i < |key| && key[i] != 0xff && (forall j :: 0 <= j < i ==> key[j] == 0xff) ==>
      r == key[..i] + [key[i] + 1]
  {
    for i := 0 to |key|
      invariant forall j :: 0 <= j < i ==> key[j] == 0xff
    {
      var byte := key[i] as int;
      if byte != 0xff {
        r := key[..i] + [byte + 1];
        assert r[..i] == key[..i];
        DifferAt(key, r, i);
        return r;
      }
    }
    r := key;
  }

  // ---------- the internal key comparator ----------

  /** An internal key whose user key is a byte string. */
  datatype RawKey = RawKey(user: Bytes, sequence: nat, kind: ValueType)

  function Abs(k: RawKey): InternalKey {
    InternalKey(Position(k.user), k.sequence, k.kind)
  }

  /** InternalKeyComparator::Compare. */
  function CompareKeys(a: RawKey, b: RawKey): int {
    var r := CompareBytes(a.user, b.user);
    if r != 0 then r
    else if Tag(Abs(a)) > Tag(Abs(b)) then -1
    else if Tag(Abs(a)) < Tag(Abs(b)) then 1
    else 0
  }

  predicate Before(a: RawKey, b: RawKey) {
    Less(Abs(a), Abs(b))
  }

  lemma CompareIsOrder(a: RawKey, b: RawKey)
    ensures CompareKeys(a, b) < 0 <==> Before(a, b)
    ensures CompareKeys(a, b) == 0 <==> a == b
    ensures CompareKeys(a, b) > 0 <==> Before(b, a)
  {
    BytewiseEmbedsInReals(a.user, b.user);
    BytewiseEmbedsInReals(b.user, a.user);
  }

  /** The earliest internal key of a user key. */
  function Earliest(user: Bytes): RawKey {
    RawKey(user, MAX_SEQUENCE, Value)
  }

  /** For start before limit the result is at or after start and before limit. */
  method SeparateKeys(start: RawKey, limit: RawKey) returns (r: RawKey)
    requires Before(start, limit)
    ensures !Before(r, start) && Before(r, limit)
    ensures r == start || Position(start.user) < Position(r.user) < Position(limit.user)
  {
    var tmp := FindShortestSeparator(start.user, limit.user);
    BytewiseEmbedsInReals(start.user, tmp);
    BytewiseEmbedsInReals(tmp, limit.user);
    if |tmp| < |start.user| && CompareBytes(start.user, tmp) < 0 {
      r := Earliest(tmp);
    } else {
      r := start;
    }
  }

  method SucceedKey(key: RawKey) returns (r: RawKey)
    ensures !Before(r, key)
    ensures r == key || Position(key.user) < Position(r.user)
  {
    var tmp := FindShortSuccessor(key.user);
    BytewiseEmbedsInReals(key.user, tmp);
    if |tmp| < |key.user| && CompareBytes(key.user, tmp) < 0 {
      r := Earliest(tmp);
    } else {
      r := key;
    }
  }
}
