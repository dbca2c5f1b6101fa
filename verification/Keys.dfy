/** Byte strings, the bytewise comparator, internal keys and the meaning of a read.

    LevelDB stores user keys under a caller-supplied total order and never looks
    inside them except through that order.  A user key is therefore modelled by its
    position in the order, a real number: every countable total order embeds into the
    reals, and `BytewiseEmbedsInReals` proves it for the built-in bytewise comparator.
  */
module Keys {

  datatype Option<+T> = None | Some(value: T)

  type Byte = x: int | 0 <= x < 256
  type Bytes = seq<Byte>

  type UserKey = real

  /** Three-way bytewise comparison (memcmp on the common prefix, then length). */
  function CompareBytes(a: Bytes, b: Bytes): int {
    if a == [] && b == [] then 0
    else if a == [] then -1
    else if b == [] then 1
    else if a[0] < b[0] then -1
    else if a[0] > b[0] then 1
    else CompareBytes(a[1..], b[1..])
  }

  /** The position of a byte string in the bytewise order. */
  function Position(s: Bytes): (r: UserKey)
    ensures 0.0 <= r < 1.0
  {
    if s == [] then 0.0 else (s[0] as real + 1.0 + Position(s[1..])) / 257.0
  }

  lemma {:induction false} BytewiseEmbedsInReals(a: Bytes, b: Bytes)
    ensures CompareBytes(a, b) < 0 <==> Position(a) < Position(b)
    ensures CompareBytes(a, b) == 0 <==> Position(a) == Position(b)
    ensures CompareBytes(a, b) == 0 <==> a == b
    decreases |a|
  {
    if a != [] && b != [] {
      BytewiseEmbedsInReals(a[1..], b[1..]);
      if a[0] == b[0] && a[1..] == b[1..] {
        assert a == [a[0]] + a[1..] && b == [b[0]] + b[1..];
      }
    }
  }

  // ---------- internal keys ----------

  const MAX_SEQUENCE: nat := 0xFF_FFFF_FFFF_FFFF

  datatype ValueType = Deletion | Value

  datatype InternalKey = InternalKey(user: UserKey, sequence: nat, kind: ValueType)

  /** The packed (sequence, type) number that breaks ties between equal user keys. */
  function Tag(k: InternalKey): nat {
    k.sequence * 256 + if k.kind.Value? then 1 else 0
  }

  /** Internal order: user key ascending, then packed tag descending. */
  predicate Less(a: InternalKey, b: InternalKey) {
    a.user < b.user || (a.user == b.user && Tag(a) > Tag(b))
  }

  /** The key a lookup of user key `k` at snapshot `s` seeks to. */
  function SeekKey(k: UserKey, s: nat): InternalKey {
    InternalKey(k, s, Value)
  }

  datatype Entry = Entry(key: InternalKey, value: Bytes)

  /** One update of a write batch. */
  datatype Op = Op(kind: ValueType, key: UserKey, value: Bytes)

  // ---------- sorted runs: memtables and table files ----------

  predicate Sorted(run: seq<Entry>) {
    forall i, j :: 0 <= i < j < |run| ==> Less(run[i].key, run[j].key)
  }

  /** Index of the first entry at or after `target`. */
  function SeekIndex(run: seq<Entry>, target: InternalKey): (i: nat)
    ensures i <= |run|
    ensures forall j :: 0 <= j < i ==> Less(run[j].key, target)
    ensures i < |run| ==> !Less(run[i].key, target)
  {
    if run == [] || !Less(run[0].key, target) then 0 else 1 + SeekIndex(run[1..], target)
  }

  /** Seek to (k, s) and accept the entry found only if it belongs to user key `k`. */
  function Lookup(run: seq<Entry>, k: UserKey, s: nat): Option<Entry> {
    var i := SeekIndex(run, SeekKey(k, s));
    if i < |run| && run[i].key.user == k then Some(run[i]) else None
  }

  // ---------- the versioned map ----------

  ghost predicate Matches(e: Entry, k: UserKey, s: nat) {
    e.key.user == k && e.key.sequence <= s
  }

  /** One entry per (user key, sequence number). */
  ghost predicate UniqueSeqs(all: iset<Entry>) {
    forall a, b :: a in all && b in all && a.key.user == b.key.user && a.key.sequence == b.key.sequence ==> a == b
  }

  ghost predicate IsNewest(all: iset<Entry>, k: UserKey, s: nat, e: Entry) {
    e in all && Matches(e, k, s) &&
    forall o :: o in all && Matches(o, k, s) ==> o.key.sequence <= e.key.sequence
  }

  function Answer(e: Entry): Option<Bytes> {
    if e.key.kind.Value? then Some(e.value) else None
  }

  /** What a versioned map holding `all` shows for key `k` at sequence number `s`. */
  ghost function Reads(all: iset<Entry>, k: UserKey, s: nat): Option<Bytes> {
    if exists e :: IsNewest(all, k, s, e) then var e :| IsNewest(all, k, s, e); Answer(e) else None
  }

  lemma ReadsNewest(all: iset<Entry>, k: UserKey, s: nat, e: Entry)
    requires UniqueSeqs(all) && IsNewest(all, k, s, e)
    ensures Reads(all, k, s) == Answer(e)
  {
    forall o | IsNewest(all, k, s, o)
      ensures o == e
    {
      assert Matches(o, k, s) && Matches(e, k, s);
    }
  }

  /** The entries of `run` that match (k, s) are exactly the run of entries for `k` from the
      seek position on, so the entry found is the newest, and nothing found means no match. */
  lemma LookupIsNewest(run: seq<Entry>, k: UserKey, s: nat)
    requires Sorted(run)
    ensures Lookup(run, k, s).None? ==> forall o :: o in run ==> !Matches(o, k, s)
    ensures Lookup(run, k, s).Some? ==>
      IsNewest((iset e | e in run), k, s, Lookup(run, k, s).value)
  {
    var i := SeekIndex(run, SeekKey(k, s));
    forall o | o in run && Matches(o, k, s)
      ensures i < |run| && run[i].key.user == k && o.key.sequence <= run[i].key.sequence
    {
      var j :| 0 <= j < |run| && run[j] == o;
      assert j >= i;
      assert j > i ==> Less(run[i].key, run[j].key);
    }
  }
}
