/** The compaction loop (db_impl.cc DoCompactionWork): which entries of the sorted input
    stream are dropped, how the rest is cut into output tables, and why no read at or above
    the smallest snapshot can tell the difference.
  */
module CompactionWork {
  import opened Keys
  import opened Versions
  import opened Sequences

  /** No file at `level + 2` or deeper covers user key `k`. */
  ghost predicate BaseLevel(v: Version, level: nat, k: UserKey) {
    forall l, f :: level + 2 <= l < NUM_LEVELS && f in v[l] ==> !(f.smallest.user <= k <= f.largest.user)
  }

  /** Sequence number of the preceding entry for the same user key. */
  function LastSequenceForKey(stream: seq<Entry>, i: nat): nat
    requires i < |stream|
  {
    if i > 0 && stream[i - 1].key.user == stream[i].key.user then stream[i - 1].key.sequence else MAX_SEQUENCE
  }

  ghost predicate Drops(stream: seq<Entry>, i: nat, smallest: nat, v: Version, level: nat)
    requires i < |stream|
  {
    var key := stream[i].key;
    LastSequenceForKey(stream, i) <= smallest ||
    (key.kind.Deletion? && key.sequence <= smallest && BaseLevel(v, level, key.user))
  }

  /** The first `n` entries of the stream without the dropped ones. */
  ghost function Kept(stream: seq<Entry>, n: nat, smallest: nat, v: Version, level: nat): seq<Entry>
    requires n <= |stream|
  {
    if n == 0 then []
    else Kept(stream, n - 1, smallest, v, level) +
         if Drops(stream, n - 1, smallest, v, level) then [] else [stream[n - 1]]
  }

  lemma KeptMembers(stream: seq<Entry>, n: nat, smallest: nat, v: Version, level: nat)
    requires n <= |stream|
    ensures forall i :: 0 <= i < n && !Drops(stream, i, smallest, v, level) ==>
      stream[i] in Kept(stream, n, smallest, v, level)
    ensures forall e :: e in Kept(stream, n, smallest, v, level) ==>
      exists i :: 0 <= i < n && stream[i] == e && !Drops(stream, i, smallest, v, level)
  {
  }

  lemma KeptSorted(stream: seq<Entry>, n: nat, smallest: nat, v: Version, level: nat)
    requires n <= |stream| && Sorted(stream)
    ensures Sorted(Kept(stream, n, smallest, v, level))
  {
    if n == 0 {
    } else {
      KeptSorted(stream, n - 1, smallest, v, level);
      KeptMembers(stream, n - 1, smallest, v, level);
      var before := Kept(stream, n - 1, smallest, v, level);
      forall i | 0 <= i < |before| ensures Less(before[i].key, stream[n - 1].key) {
        assert before[i] in before;
      }
    }
  }

  /** Entries elsewhere in the store are, key by key, either all newer than the stream or all
      older; older ones exist only where `BaseLevel` fails. */
  ghost predicate Layered(stream: seq<Entry>, rest: iset<Entry>, v: Version, level: nat) {
    forall o :: o in rest ==>
      (forall e :: e in stream && e.key.user == o.key.user ==> o.key.sequence > e.key.sequence) ||
      (!BaseLevel(v, level, o.key.user) &&
       forall e :: e in stream && e.key.user == o.key.user ==> o.key.sequence < e.key.sequence)
  }

  ghost function Of(run: seq<Entry>): iset<Entry> {
    iset e | e in run
  }

  /** In a sorted stream the entry before a matching entry's user-key group decides rule (A): the
      first entry at or below the snapshot is kept unless it is an obsolete deletion marker. */
  lemma FirstVisibleKept(stream: seq<Entry>, i: nat, smallest: nat, v: Version, level: nat, s: nat)
    requires i < |stream| && Sorted(stream) && UniqueSeqs(Of(stream))
    requires smallest < MAX_SEQUENCE && s >= smallest
    requires IsNewest(Of(stream), stream[i].key.user, s, stream[i])
    requires Drops(stream, i, smallest, v, level)
    ensures stream[i].key.kind.Deletion? && BaseLevel(v, level, stream[i].key.user)
    ensures stream[i].key.sequence <= smallest
  {
    if i > 0 && stream[i - 1].key.user == stream[i].key.user {
      var p := stream[i - 1];
      assert p in Of(stream) && stream[i] in Of(stream);
      assert Less(p.key, stream[i].key);
      if p.key.sequence <= smallest {
        assert Matches(p, stream[i].key.user, s);
      }
    }
  }

  /** Everything older than an entry at or below the smallest snapshot is dropped. */
  lemma OlderDropped(stream: seq<Entry>, i: nat, j: nat, smallest: nat, v: Version, level: nat)
    requires i < j < |stream| && Sorted(stream)
    requires stream[i].key.user == stream[j].key.user && stream[i].key.sequence <= smallest
    ensures Drops(stream, j, smallest, v, level)
  {
    var p := stream[j - 1];
    assert i < j - 1 ==> Less(stream[i].key, p.key);
    assert Less(p.key, stream[j].key);
  }

  ghost predicate NoMatch(all: iset<Entry>, k: UserKey, s: nat) {
    forall e :: e in all ==> !Matches(e, k, s)
  }

  lemma NoMatchReads(all: iset<Entry>, k: UserKey, s: nat)
    requires NoMatch(all, k, s)
    ensures Reads(all, k, s) == None
  {
  }

  lemma NewestExists(all: iset<Entry>, k: UserKey, s: nat)
    requires !NoMatch(all, k, s)
    ensures exists e :: IsNewest(all, k, s, e)
    decreases s
  {
    var e :| e in all && Matches(e, k, s);
    if e.key.sequence == s {
      assert IsNewest(all, k, s, e);
    } else {
      NewestExists(all, k, s - 1);
      var o :| IsNewest(all, k, s - 1, o);
      if exists t :: t in all && Matches(t, k, s) && t.key.sequence == s {
        var t :| t in all && Matches(t, k, s) && t.key.sequence == s;
        assert IsNewest(all, k, s, t);
      } else {
        assert forall t :: t in all && Matches(t, k, s) ==> Matches(t, k, s - 1);
        assert IsNewest(all, k, s, o);
      }
    }
  }

  /** A dropped deletion marker that hid something: it answers reads at the smallest snapshot,
      and what is stored outside the stream shows a value for its key. */
  ghost predicate Unhides(stream: seq<Entry>, rest: iset<Entry>, smallest: nat, v: Version, level: nat, i: nat)
    requires i < |stream|
  {
    Drops(stream, i, smallest, v, level) &&
    IsNewest(rest + Of(stream), stream[i].key.user, smallest, stream[i]) &&
    Reads(rest, stream[i].key.user, smallest) != None
  }

  /** A kept entry for the key of a dropped one at or below the smallest snapshot is newer than it. */
  lemma KeptIsNewer(stream: seq<Entry>, smallest: nat, v: Version, level: nat, i: nat, o: Entry)
    requires Sorted(stream) && i < |stream| && stream[i].key.sequence <= smallest
    requires Drops(stream, i, smallest, v, level) && UniqueSeqs(Of(stream))
    requires o in Kept(stream, |stream|, smallest, v, level) && o.key.user == stream[i].key.user
    ensures o.key.sequence > stream[i].key.sequence
  {
    hide Kept;
    KeptMembers(stream, |stream|, smallest, v, level);
    var j :| 0 <= j < |stream| && stream[j] == o && !Drops(stream, j, smallest, v, level);
    if i < j {
      OlderDropped(stream, i, j, smallest, v, level);
    } else {
      assert Less(stream[j].key, stream[i].key);
      assert o in Of(stream) && stream[i] in Of(stream);
    }
  }

  /** What is still visible after the newest entry is dropped is stored elsewhere. */
  lemma VisibleElsewhere(stream: seq<Entry>, rest: iset<Entry>, smallest: nat, v: Version, level: nat,
                         i: nat, s: nat, o: Entry)
    requires Sorted(stream) && UniqueSeqs(Of(stream)) && i < |stream|
    requires Drops(stream, i, smallest, v, level) && stream[i].key.sequence <= smallest
    requires IsNewest(rest + Of(stream), stream[i].key.user, s, stream[i])
    requires o in rest + Of(Kept(stream, |stream|, smallest, v, level)) && Matches(o, stream[i].key.user, s)
    ensures o in rest && Matches(o, stream[i].key.user, smallest)
  {
    if o in Kept(stream, |stream|, smallest, v, level) {
      KeptMembers(stream, |stream|, smallest, v, level);
      KeptIsNewer(stream, smallest, v, level, i, o);
    }
    assert o in rest + Of(stream);
  }

  lemma PartUnique(all: iset<Entry>, part: iset<Entry>)
    requires UniqueSeqs(all) && part <= all
    ensures UniqueSeqs(part)
  {
  }

  /** Once the newest visible entry is dropped, reads fall through to what is stored elsewhere. */
  lemma DroppedFallsThrough(stream: seq<Entry>, rest: iset<Entry>, smallest: nat, v: Version, level: nat,
                            i: nat, s: nat)
    requires Sorted(stream) && UniqueSeqs(rest + Of(stream)) && i < |stream|
    requires smallest < MAX_SEQUENCE && s >= smallest && Drops(stream, i, smallest, v, level)
    requires IsNewest(rest + Of(stream), stream[i].key.user, s, stream[i])
    ensures stream[i].key.kind.Deletion? && BaseLevel(v, level, stream[i].key.user)
    ensures IsNewest(rest + Of(stream), stream[i].key.user, smallest, stream[i])
    ensures Reads(rest + Of(Kept(stream, |stream|, smallest, v, level)), stream[i].key.user, s)
      == Reads(rest, stream[i].key.user, smallest)
  {
    var k, after := stream[i].key.user, rest + Of(Kept(stream, |stream|, smallest, v, level));
    PartUnique(rest + Of(stream), Of(stream));
    assert IsNewest(Of(stream), k, s, stream[i]);
    FirstVisibleKept(stream, i, smallest, v, level, s);
    forall o | o in after && Matches(o, k, s) ensures o in rest && Matches(o, k, smallest) {
      VisibleElsewhere(stream, rest, smallest, v, level, i, s, o);
    }
    KeptMembers(stream, |stream|, smallest, v, level);
    PartUnique(rest + Of(stream), after);
    SameMatchesSameRead(after, rest, k, s, smallest);
  }

  lemma SameMatchesSameRead(all: iset<Entry>, part: iset<Entry>, k: UserKey, s: nat, t: nat)
    requires part <= all && UniqueSeqs(all) && t <= s
    requires forall o :: o in all && Matches(o, k, s) ==> o in part && Matches(o, k, t)
    ensures Reads(all, k, s) == Reads(part, k, t)
  {
    if NoMatch(part, k, t) {
      NoMatchReads(part, k, t);
      NoMatchReads(all, k, s);
    } else {
      NewestExists(part, k, t);
      var e :| IsNewest(part, k, t, e);
      assert IsNewest(all, k, s, e);
      ReadsNewest(part, k, t, e);
      ReadsNewest(all, k, s, e);
    }
  }

  /** One read before and after the stream is replaced by what the compaction keeps. */
  lemma DropRulesKeepRead(stream: seq<Entry>, rest: iset<Entry>, smallest: nat, v: Version, level: nat,
                          k: UserKey, s: nat)
    requires Sorted(stream) && UniqueSeqs(rest + Of(stream))
    requires smallest < MAX_SEQUENCE && s >= smallest
    requires forall i :: 0 <= i < |stream| ==> !Unhides(stream, rest, smallest, v, level, i)
    ensures Reads(rest + Of(Kept(stream, |stream|, smallest, v, level)), k, s) == Reads(rest + Of(stream), k, s)
  {
    var before, after := rest + Of(stream), rest + Of(Kept(stream, |stream|, smallest, v, level));
    KeptMembers(stream, |stream|, smallest, v, level);
    assert after <= before;
    if NoMatch(before, k, s) {
      NoMatchReads(before, k, s);
      NoMatchReads(after, k, s);
    } else {
      NewestExists(before, k, s);
      var e :| IsNewest(before, k, s, e);
      ReadsNewest(before, k, s, e);
      if e in after {
        assert IsNewest(after, k, s, e);
        ReadsNewest(after, k, s, e);
      } else {
        var i :| 0 <= i < |stream| && stream[i] == e;
        DroppedFallsThrough(stream, rest, smallest, v, level, i, s);
        assert !Unhides(stream, rest, smallest, v, level, i);
      }
    }
  }

  ghost predicate SameReads(a: iset<Entry>, b: iset<Entry>, smallest: nat) {
    forall k, s: nat :: s >= smallest ==> Reads(a, k, s) == Reads(b, k, s)
  }

  /** Replacing the stream by what the compaction keeps changes no read at or above the smallest
      snapshot exactly when no dropped deletion marker hid something stored elsewhere. */
  lemma DropRulesInvisibleIff(stream: seq<Entry>, rest: iset<Entry>, smallest: nat, v: Version, level: nat)
    requires Sorted(stream) && UniqueSeqs(rest + Of(stream)) && smallest < MAX_SEQUENCE
    ensures SameReads(rest + Of(Kept(stream, |stream|, smallest, v, level)), rest + Of(stream), smallest) <==>
      forall i :: 0 <= i < |stream| ==> !Unhides(stream, rest, smallest, v, level, i)
  {
    var before, after := rest + Of(stream), rest + Of(Kept(stream, |stream|, smallest, v, level));
    if i :| 0 <= i < |stream| && Unhides(stream, rest, smallest, v, level, i) {
      DroppedFallsThrough(stream, rest, smallest, v, level, i, smallest);
      ReadsNewest(before, stream[i].key.user, smallest, stream[i]);
      assert Reads(after, stream[i].key.user, smallest) != Reads(before, stream[i].key.user, smallest);
    } else {
      forall k, s: nat | s >= smallest ensures Reads(after, k, s) == Reads(before, k, s) {
        DropRulesKeepRead(stream, rest, smallest, v, level, k, s);
      }
    }
  }

  /** Entries stored elsewhere that are layered around the stream are never hidden by a dropped marker. */
  lemma LayeredHidesNothing(stream: seq<Entry>, rest: iset<Entry>, smallest: nat, v: Version, level: nat, i: nat)
    requires Sorted(stream) && UniqueSeqs(rest + Of(stream)) && i < |stream|
    requires Layered(stream, rest, v, level) && smallest < MAX_SEQUENCE
    ensures !Unhides(stream, rest, smallest, v, level, i)
  {
    var e := stream[i];
    if Drops(stream, i, smallest, v, level) && IsNewest(rest + Of(stream), e.key.user, smallest, e) {
      DroppedFallsThrough(stream, rest, smallest, v, level, i, smallest);
      forall o | o in rest ensures !Matches(o, e.key.user, smallest) {
        if o.key.user == e.key.user {
          assert o.key.sequence > e.key.sequence by { assert e in stream; }
          assert o in rest + Of(stream);
        }
      }
      NoMatchReads(rest, e.key.user, smallest);
    }
  }

  /** The drop rules are invisible: every read at or above the smallest snapshot gives the same
      answer after the stream is replaced by what the compaction keeps. */
  lemma DropRulesPreserveReads(stream: seq<Entry>, rest: iset<Entry>, smallest: nat, v: Version, level: nat,
                               k: UserKey, s: nat)
    requires Sorted(stream) && UniqueSeqs(rest + Of(stream))
    requires Layered(stream, rest, v, level)
    requires smallest < MAX_SEQUENCE && s >= smallest
    ensures Reads(rest + Of(Kept(stream, |stream|, smallest, v, level)), k, s) == Reads(rest + Of(stream), k, s)
  {
    forall i | 0 <= i < |stream| ensures !Unhides(stream, rest, smallest, v, level, i) {
      LayeredHidesNothing(stream, rest, smallest, v, level, i);
    }
    DropRulesKeepRead(stream, rest, smallest, v, level, k, s);
  }

  // ---------- the loop itself ----------

  /** The moving parts of a compaction: per-level file pointers for IsBaseLevelForKey and the
      grandparent accounting of ShouldStopBefore. */
  class Compaction {
    const level: nat
    const version: Version
    const grandparents: FileList
    var levelPtrs: seq<nat>
    var grandparentIndex: nat
    var seenKey: bool
    var overlappedBytes: nat

    constructor (level: nat, version: Version, grandparents: FileList)
      ensures this.level == level && this.version == version && this.grandparents == grandparents
      ensures Valid() && forall k :: Behind(k)
    {
      this.level, this.version, this.grandparents := level, version, grandparents;
      levelPtrs := seq(NUM_LEVELS, _ => 0);
      grandparentIndex, seenKey, overlappedBytes := 0, false, 0;
    }

    ghost predicate Valid()
      reads this
    {
      |levelPtrs| == NUM_LEVELS && grandparentIndex <= |grandparents| &&
      forall l :: 0 <= l < NUM_LEVELS ==> levelPtrs[l] <= |version[l]|
    }

    /** Every file already passed over ends before user key `k`. */
    ghost predicate Behind(k: UserKey)
      requires Valid()
      reads this
    {
      forall l, i :: 0 <= l < NUM_LEVELS && 0 <= i < levelPtrs[l] ==> version[l][i].largest.user < k
    }

    /** The remembered pointers answer like a scan of every deeper file, for nondecreasing keys. */
    method IsBaseLevelForKey(k: UserKey) returns (base: bool)
      requires VersionOk(version) && Valid() && Behind(k)
      modifies this`levelPtrs
      ensures Valid() && Behind(k)
      ensures base <==> BaseLevel(version, level, k)
    {
      var lvl := level + 2;
      while lvl < NUM_LEVELS
        invariant level + 2 <= lvl
        invariant Valid() && Behind(k)
        invariant forall l, f :: level + 2 <= l < lvl && l < NUM_LEVELS && f in version[l] ==>
          !(f.smallest.user <= k <= f.largest.user)
      {
        var files := version[lvl];
        while levelPtrs[lvl] < |files|
          invariant Valid() && Behind(k)
          decreases |files| - levelPtrs[lvl]
        {
          var f := files[levelPtrs[lvl]];
          if k <= f.largest.user {
            if k >= f.smallest.user {
              return false;
            }
            break;
          }
          levelPtrs := levelPtrs[lvl := levelPtrs[lvl] + 1];
        }
        forall f | f in files ensures !(f.smallest.user <= k <= f.largest.user) {
          var p := levelPtrs[lvl];
          var i :| 0 <= i < |files| && files[i] == f;
          if p < i {
            assert files[p] in files && Less(files[p].largest, files[i].smallest);
          }
        }
        lvl := lvl + 1;
      }
      return true;
    }

    /** Counts grandparent bytes passed since the current output began. */
    method ShouldStopBefore(key: InternalKey) returns (stop: bool)
      requires Valid()
      modifies this`grandparentIndex, this`seenKey, this`overlappedBytes
      ensures Valid() && seenKey && grandparentIndex >= old(grandparentIndex)
      ensures grandparentIndex < |grandparents| ==> !Less(grandparents[grandparentIndex].largest, key)
      ensures forall i :: old(grandparentIndex) <= i < grandparentIndex ==> Less(grandparents[i].largest, key)
      ensures
        var passed := if old(seenKey)
                      then TotalFileSize(grandparents[old(grandparentIndex)..grandparentIndex]) else 0;
        stop == (old(overlappedBytes) + passed > MAX_GRANDPARENT_OVERLAP_BYTES) &&
        overlappedBytes == if stop then 0 else old(overlappedBytes) + passed
    {
      ghost var start := grandparentIndex;
      while grandparentIndex < |grandparents| && Less(grandparents[grandparentIndex].largest, key)
        invariant start <= grandparentIndex <= |grandparents| && seenKey == old(seenKey)
        invariant forall i :: start <= i < grandparentIndex ==> Less(grandparents[i].largest, key)
        invariant overlappedBytes == old(overlappedBytes) +
          if seenKey then TotalFileSize(grandparents[start..grandparentIndex]) else 0
      {
        NextFileSize(grandparents, start, grandparentIndex);
        if seenKey {
          overlappedBytes := overlappedBytes + grandparents[grandparentIndex].size;
        }
        grandparentIndex := grandparentIndex + 1;
      }
      seenKey := true;
      if overlappedBytes > MAX_GRANDPARENT_OVERLAP_BYTES {
        overlappedBytes := 0;
        return true;
      }
      return false;
    }
  }

  lemma NextFileSize(files: FileList, start: nat, i: nat)
    requires start <= i < |files|
    ensures TotalFileSize(files[start..i + 1]) == TotalFileSize(files[start..i]) + files[i].size
  {
    assert files[start..i + 1] == files[start..i] + [files[i]];
    TotalFileSizeSnoc(files[start..i], files[i]);
  }

  lemma TotalFileSizeSnoc(files: FileList, f: FileMeta)
    ensures TotalFileSize(files + [f]) == TotalFileSize(files) + f.size
  {
    if files != [] {
      assert (files + [f])[1..] == files[1..] + [f];
    }
  }

  // ---------- where outputs are cut ----------

  /** The first `p` grandparent files, and no next one, end before `key`. */
  ghost predicate PassedAt(grandparents: FileList, key: InternalKey, p: nat) {
    p <= |grandparents| && (forall g :: 0 <= g < p ==> Less(grandparents[g].largest, key)) &&
    (p < |grandparents| ==> !Less(grandparents[p].largest, key))
  }

  /** Entry `j` is where the count of grandparent bytes last began before entry `i`. */
  ghost predicate CountedFrom(stops: seq<bool>, j: nat, i: nat)
    requires i <= |stops|
  {
    j < i && (j == 0 || stops[j]) && forall k :: j < k < i ==> !stops[k]
  }

  ghost predicate StopFrom(grandparents: FileList, passed: seq<nat>, stops: seq<bool>, j: nat, i: nat)
    requires i < |stops| == |passed|
  {
    CountedFrom(stops, j, i) && passed[j] <= passed[i] <= |grandparents| &&
    TotalFileSize(grandparents[passed[j]..passed[i]]) > MAX_GRANDPARENT_OVERLAP_BYTES
  }

  ghost predicate StopAt(grandparents: FileList, passed: seq<nat>, stops: seq<bool>, i: nat)
    requires i < |stops| == |passed|
  {
    stops[i] <==> exists j :: StopFrom(grandparents, passed, stops, j, i)
  }

  /** Before which of the first entries the grandparent overlap asks for a new output: where the files
      passed since the last such place, or since the first entry, add up to more than the limit. */
  ghost predicate StopsOk(grandparents: FileList, stream: seq<Entry>, passed: seq<nat>, stops: seq<bool>) {
    |stops| == |passed| <= |stream| &&
    (forall i :: 0 <= i < |stops| ==> PassedAt(grandparents, stream[i].key, passed[i])) &&
    forall i :: 0 <= i < |stops| ==> StopAt(grandparents, passed, stops, i)
  }

  /** The counters of a compaction after the entries so far. */
  ghost predicate Counting(c: Compaction, passed: seq<nat>, stops: seq<bool>, mark: nat)
    reads c`seenKey, c`grandparentIndex, c`overlappedBytes
  {
    |stops| == |passed| && c.seenKey == (passed != []) &&
    if passed == [] then c.grandparentIndex == c.overlappedBytes == 0
    else
      var last := passed[|passed| - 1];
      CountedFrom(stops, mark, |stops|) && c.grandparentIndex == last && passed[mark] <= last <= |c.grandparents| &&
      c.overlappedBytes == TotalFileSize(c.grandparents[passed[mark]..last])
  }

  lemma {:induction false} TotalFileSizeConcat(a: FileList, b: FileList)
    ensures TotalFileSize(a + b) == TotalFileSize(a) + TotalFileSize(b)
  {
    if a == [] {
      assert a + b == b;
    } else {
      assert (a + b)[1..] == a[1..] + b;
      TotalFileSizeConcat(a[1..], b);
    }
  }

  lemma CountedPrefix(stops: seq<bool>, stop: bool, j: nat, i: nat)
    requires i <= |stops|
    ensures CountedFrom(stops + [stop], j, i) <==> CountedFrom(stops, j, i)
  {
    assert forall k :: 0 <= k < i ==> (stops + [stop])[k] == stops[k];
  }

  lemma OnlyCountedFrom(stops: seq<bool>, stop: bool, mark: nat)
    requires CountedFrom(stops, mark, |stops|)
    ensures forall j: nat :: CountedFrom(stops + [stop], j, |stops|) <==> j == mark
    ensures CountedFrom(stops + [stop], if stop then |stops| else mark, |stops| + 1)
  {
    forall j: nat ensures CountedFrom(stops + [stop], j, |stops|) <==> j == mark {
      CountedPrefix(stops, stop, j, |stops|);
    }
  }

  lemma StopsBefore(grandparents: FileList, stream: seq<Entry>, passed: seq<nat>, stops: seq<bool>, p: nat, stop: bool)
    requires StopsOk(grandparents, stream, passed, stops) && |stops| < |stream|
    ensures forall i :: 0 <= i < |stops| ==> StopAt(grandparents, passed + [p], stops + [stop], i)
  {
    forall i | 0 <= i < |stops| ensures StopAt(grandparents, passed + [p], stops + [stop], i) {
      assert StopAt(grandparents, passed, stops, i);
      forall j: nat ensures
        StopFrom(grandparents, passed + [p], stops + [stop], j, i) <==> StopFrom(grandparents, passed, stops, j, i) {
        CountedPrefix(stops, stop, j, i);
      }
    }
  }

  lemma StopsNext(grandparents: FileList, stream: seq<Entry>, passed: seq<nat>, stops: seq<bool>, mark: nat, p: nat,
                  stop: bool)
    requires StopsOk(grandparents, stream, passed, stops) && |stops| < |stream|
    requires PassedAt(grandparents, stream[|stops|].key, p)
    requires stops == [] ==> !stop
    requires stops != [] ==>
      CountedFrom(stops, mark, |stops|) && passed[mark] <= p &&
      stop == (TotalFileSize(grandparents[passed[mark]..p]) > MAX_GRANDPARENT_OVERLAP_BYTES)
    ensures StopsOk(grandparents, stream, passed + [p], stops + [stop])
  {
    var passed', stops', n := passed + [p], stops + [stop], |stops|;
    StopsBefore(grandparents, stream, passed, stops, p, stop);
    assert StopAt(grandparents, passed', stops', n) by {
      if n > 0 {
        OnlyCountedFrom(stops, stop, mark);
        assert passed'[mark] == passed[mark];
        assert stop ==> StopFrom(grandparents, passed', stops', mark, n);
      }
    }
  }

  /** Whether the grandparent overlap asks for a new output; the file pointers stay put. */
  method StopBefore(c: Compaction, stream: seq<Entry>, i: nat, ghost passed: seq<nat>, ghost stops: seq<bool>,
                    ghost mark: nat)
    returns (stop: bool, ghost p: nat, ghost mark': nat)
    requires c.Valid() && Sorted(stream) && i < |stream|
    modifies c
    ensures c.Valid() && c.levelPtrs == old(c.levelPtrs)
    ensures old(c.Behind(stream[i].key.user)) ==> c.Behind(stream[i].key.user)
    ensures old(Counting(c, passed, stops, mark)) && |stops| == i && StopsOk(c.grandparents, stream, passed, stops) ==>
      Counting(c, passed + [p], stops + [stop], mark') &&
      StopsOk(c.grandparents, stream, passed + [p], stops + [stop])
  {
    ghost var from, counted := c.grandparentIndex, c.overlappedBytes;
    ghost var counting := Counting(c, passed, stops, mark);
    stop := c.ShouldStopBefore(stream[i].key);
    p, mark' := c.grandparentIndex, if stop || i == 0 then i else mark;
    if counting && |stops| == i && StopsOk(c.grandparents, stream, passed, stops) {
      CountedMore(c.grandparents, stream, passed, stops, mark, from, p, counted, stop);
    }
  }

  lemma CountedMore(grandparents: FileList, stream: seq<Entry>, passed: seq<nat>, stops: seq<bool>, mark: nat,
                    from: nat, p: nat, counted: nat, stop: bool)
    requires Sorted(stream) && |stops| < |stream| && StopsOk(grandparents, stream, passed, stops)
    requires from <= p <= |grandparents|
    requires forall g :: from <= g < p ==> Less(grandparents[g].largest, stream[|stops|].key)
    requires p < |grandparents| ==> !Less(grandparents[p].largest, stream[|stops|].key)
    requires if passed == [] then from == counted == 0 && !stop
             else
               CountedFrom(stops, mark, |stops|) && from == passed[|passed| - 1] && passed[mark] <= from &&
               counted == TotalFileSize(grandparents[passed[mark]..from]) &&
               stop == (counted + TotalFileSize(grandparents[from..p]) > MAX_GRANDPARENT_OVERLAP_BYTES)
    ensures StopsOk(grandparents, stream, passed + [p], stops + [stop])
    ensures passed == [] || stop ==> CountedFrom(stops + [stop], |stops|, |stops| + 1)
    ensures passed != [] ==>
      (!stop ==> CountedFrom(stops + [stop], mark, |stops| + 1)) &&
      counted + TotalFileSize(grandparents[from..p]) == TotalFileSize(grandparents[passed[mark]..p])
  {
    var n := |stops|;
    if n > 0 {
      assert grandparents[passed[mark]..p] == grandparents[passed[mark]..from] + grandparents[from..p];
      TotalFileSizeConcat(grandparents[passed[mark]..from], grandparents[from..p]);
      OnlyCountedFrom(stops, stop, mark);
      forall g | 0 <= g < from ensures Less(grandparents[g].largest, stream[n].key) {
        assert PassedAt(grandparents, stream[n - 1].key, passed[n - 1]);
        assert Less(stream[n - 1].key, stream[n].key);
      }
    }
    StopsNext(grandparents, stream, passed, stops, mark, p, stop);
  }

  /** Rules (A) and (B) of the loop, for one entry. */
  method DropEntry(c: Compaction, key: InternalKey, lastSequenceForKey: nat, smallest: nat) returns (drop: bool)
    requires VersionOk(c.version) && c.Valid() && c.Behind(key.user)
    modifies c`levelPtrs
    ensures c.Valid() && c.Behind(key.user)
    ensures drop <==>
      (lastSequenceForKey <= smallest ||
       (key.kind.Deletion? && key.sequence <= smallest && BaseLevel(c.version, c.level, key.user)))
  {
    drop := false;
    if lastSequenceForKey <= smallest {
      drop := true;
    } else if key.kind.Deletion? && key.sequence <= smallest {
      drop := c.IsBaseLevelForKey(key.user);
    }
  }

  lemma BehindNext(c: Compaction, stream: seq<Entry>, i: nat)
    requires Sorted(stream) && i + 1 < |stream| && c.Valid() && c.Behind(stream[i].key.user)
    ensures c.Behind(stream[i + 1].key.user)
  {
    assert Less(stream[i].key, stream[i + 1].key);
  }

  ghost predicate Progress(stream: seq<Entry>, i: nat, has: bool, current: UserKey, last: nat) {
    i <= |stream| && has == (i > 0) &&
      (i > 0 ==> current == stream[i - 1].key.user && last == stream[i - 1].key.sequence)
  }

  lemma KeptStep(stream: seq<Entry>, i: nat, smallest: nat, v: Version, level: nat, drop: bool)
    requires i < |stream| && drop == Drops(stream, i, smallest, v, level)
    ensures Kept(stream, i + 1, smallest, v, level)
      == Kept(stream, i, smallest, v, level) + if drop then [] else [stream[i]]
  {
  }

  /** Finished output tables and the one being built. */
  datatype Outputs = Outputs(done: seq<seq<Entry>>, builder: Option<seq<Entry>>) {
    ghost predicate Ok() {
      (forall i :: 0 <= i < |done| ==> done[i] != []) && (builder.Some? ==> builder.value != [])
    }

    ghost function Runs(): seq<seq<Entry>> {
      done + if builder.Some? then [builder.value] else []
    }

    ghost function Contents(): seq<Entry> {
      Flatten(done) + if builder.Some? then builder.value else []
    }

    /** FinishCompactionOutputFile, when a builder is open. */
    function Close(): (r: Outputs)
      requires Ok()
      ensures r.Ok() && r.builder.None? && r.Contents() == Contents() && r.Runs() == Runs()
    {
      if builder.Some? then FlattenSnoc(done, builder.value); Outputs(done + [builder.value], None) else this
    }

    /** Opens a builder if necessary and adds the entry. */
    function Add(e: Entry): (r: Outputs)
      requires Ok()
      ensures r.Ok() && r.builder.Some? && r.Contents() == Contents() + [e]
    {
      this.(builder := Some((if builder.Some? then builder.value else []) + [e]))
    }
  }

  /** The output size limit, and the table builder's running file size. */
  datatype Limits = Limits(maxOutputSize: nat, fileSize: seq<Entry> -> nat)

  /** One output: its first and last entries are the stream's entries `from` and `last`, it spans no place
      where a new output was asked for, and it did not reach the size limit before its end. */
  ghost predicate Piece(stream: seq<Entry>, stops: seq<bool>, run: seq<Entry>, from: nat, last: nat, limits: Limits) {
    run != [] && from <= last < |stream| && last < |stops| && run[0] == stream[from] &&
      run[|run| - 1] == stream[last] &&
    (forall k :: from < k <= last ==> !stops[k]) &&
    forall n :: 0 < n < |run| ==> limits.fileSize(run[..n]) < limits.maxOutputSize
  }

  /** An output ends because it is large enough or because a new one was asked for before entry `next`. */
  ghost predicate EndsFor(stops: seq<bool>, run: seq<Entry>, last: nat, next: nat, limits: Limits) {
    limits.fileSize(run) >= limits.maxOutputSize || exists k :: last < k <= next && k < |stops| && stops[k]
  }

  /** Where and why the outputs are cut. */
  ghost predicate CutAt(stream: seq<Entry>, stops: seq<bool>, runs: seq<seq<Entry>>, from: seq<nat>, last: seq<nat>,
                        limits: Limits)
  {
    |from| == |last| == |runs| &&
    (forall j :: 0 <= j < |runs| ==> Piece(stream, stops, runs[j], from[j], last[j], limits)) &&
    forall j, k :: 0 <= j < k < |runs| && k == j + 1 ==>
      last[j] < from[k] && EndsFor(stops, runs[j], last[j], from[k], limits)
  }

  /** The finished outputs and the open one are cut where they should be, the open one so far. */
  ghost predicate CutSoFar(stream: seq<Entry>, stops: seq<bool>, out: Outputs, from: seq<nat>, last: seq<nat>,
                           limits: Limits)
  {
    CutAt(stream, stops, out.Runs(), from, last, limits) &&
    (out.Runs() != [] ==>
      var run, end := out.Runs()[|out.Runs()| - 1], last[|last| - 1];
      if out.builder.Some?
        then limits.fileSize(run) < limits.maxOutputSize && forall k :: end < k < |stops| ==> !stops[k]
        else EndsFor(stops, run, end, |stops|, limits))
  }

  lemma CutMoreStops(stream: seq<Entry>, stops: seq<bool>, runs: seq<seq<Entry>>, from: seq<nat>, last: seq<nat>,
                     limits: Limits, stop: bool)
    requires CutAt(stream, stops, runs, from, last, limits)
    ensures CutAt(stream, stops + [stop], runs, from, last, limits)
  {
    var stops' := stops + [stop];
    forall j | 0 <= j < |runs| ensures Piece(stream, stops', runs[j], from[j], last[j], limits) {
      assert Piece(stream, stops, runs[j], from[j], last[j], limits);
    }
    forall j, k | 0 <= j < k < |runs| && k == j + 1 ensures EndsFor(stops', runs[j], last[j], from[k], limits) {
      MoreStops(stops, stop, runs[j], last[j], from[k], limits);
    }
  }

  lemma MoreStops(stops: seq<bool>, stop: bool, run: seq<Entry>, last: nat, next: nat, limits: Limits)
    requires EndsFor(stops, run, last, next, limits)
    ensures EndsFor(stops + [stop], run, last, next, limits)
  {
    if limits.fileSize(run) < limits.maxOutputSize {
      var k :| last < k <= next && k < |stops| && stops[k];
      assert (stops + [stop])[k];
    }
  }

  /** A new place to stop closes the open output. */
  lemma StopCuts(stream: seq<Entry>, stops: seq<bool>, out: Outputs, from: seq<nat>, last: seq<nat>, limits: Limits,
                 stop: bool)
    requires out.Ok() && CutSoFar(stream, stops, out, from, last, limits)
    ensures CutSoFar(stream, stops + [stop], if stop then out.Close() else out, from, last, limits)
  {
    var stops' := stops + [stop];
    CutMoreStops(stream, stops, out.Runs(), from, last, limits, stop);
    if out.Runs() != [] {
      var run, end := out.Runs()[|out.Runs()| - 1], last[|last| - 1];
      assert Piece(stream, stops, run, from[|from| - 1], end, limits);
      if out.builder.None? {
        MoreStops(stops, stop, run, end, |stops|, limits);
        if limits.fileSize(run) < limits.maxOutputSize {
          var k :| end < k <= |stops| && k < |stops'| && stops'[k];
          assert end < k <= |stops'| && stops'[k];
        }
      } else if stop {
        assert stops'[|stops|];
      }
    }
  }

  /** Adding the entry at the last place. */
  lemma AddCuts(stream: seq<Entry>, stops: seq<bool>, out: Outputs, from: seq<nat>, last: seq<nat>, limits: Limits)
    returns (from': seq<nat>, last': seq<nat>)
    requires out.Ok() && CutSoFar(stream, stops, out, from, last, limits) && 0 < |stops| <= |stream|
    requires forall j :: 0 <= j < |last| ==> last[j] < |stops| - 1
    ensures var out' := out.Add(stream[|stops| - 1]); var run := out'.builder.value;
      CutSoFar(stream, stops, if limits.fileSize(run) >= limits.maxOutputSize then out'.Close() else out', from', last',
               limits)
    ensures forall j :: 0 <= j < |last'| ==> last'[j] < |stops|
  {
    hide CutAt, EndsFor, out.Ok, out.Contents;
    CutLengths(stream, stops, out.Runs(), from, last, limits);
    var i := |stops| - 1;
    var runs, out' := out.Runs(), out.Add(stream[i]);
    if out.builder.None? {
      from', last' := from + [i], last + [i];
      AddedFirst(out, stream[i]);
      NewPiece(stream, stops, runs, from, last, limits, i);
    } else {
      from', last' := from, last[..|runs| - 1] + [i];
      AddedMore(out, stream[i]);
      LongerPiece(stream, stops, runs, from, last, limits, i);
    }
    CutStillOk(stream, stops, out', from', last', limits);
  }

  lemma CutLengths(stream: seq<Entry>, stops: seq<bool>, runs: seq<seq<Entry>>, from: seq<nat>, last: seq<nat>,
                   limits: Limits)
    requires CutAt(stream, stops, runs, from, last, limits)
    ensures |from| == |last| == |runs|
  {
  }

  lemma AddedFirst(out: Outputs, e: Entry)
    requires out.Ok() && out.builder.None?
    ensures out.Add(e).builder == Some([e]) && out.Add(e).Runs() == out.Runs() + [[e]]
  {
    assert [] + [e] == [e];
  }

  lemma AddedMore(out: Outputs, e: Entry)
    requires out.Ok() && out.builder.Some?
    ensures var runs, n := out.Runs(), |out.Runs()| - 1;
      n >= 0 && out.Add(e).builder == Some(runs[n] + [e]) && out.Add(e).Runs() == runs[..n] + [runs[n] + [e]]
  {
    assert out.Runs()[..|out.Runs()| - 1] == out.done;
  }

  lemma CutStillOk(stream: seq<Entry>, stops: seq<bool>, out: Outputs, from: seq<nat>, last: seq<nat>, limits: Limits)
    requires out.Ok() && out.builder.Some? && CutAt(stream, stops, out.Runs(), from, last, limits)
    requires last != [] && last[|last| - 1] + 1 == |stops|
    ensures CutSoFar(stream, stops,
                     if limits.fileSize(out.builder.value) >= limits.maxOutputSize then out.Close()
                       else out, from, last,
                     limits)
  {
    assert out.Runs()[|out.Runs()| - 1] == out.builder.value;
  }

  lemma NewPiece(stream: seq<Entry>, stops: seq<bool>, runs: seq<seq<Entry>>, from: seq<nat>, last: seq<nat>,
                 limits: Limits, i: nat)
    requires CutAt(stream, stops, runs, from, last, limits) && i < |stream| && i + 1 == |stops|
    requires runs != [] ==> last[|last| - 1] < i && EndsFor(stops, runs[|runs| - 1], last[|last| - 1], |stops|, limits)
    ensures CutAt(stream, stops, runs + [[stream[i]]], from + [i], last + [i], limits)
  {
    var runs', from', last' := runs + [[stream[i]]], from + [i], last + [i];
    forall j | 0 <= j < |runs'| ensures Piece(stream, stops, runs'[j], from'[j], last'[j], limits) {
      assert j < |runs| ==> Piece(stream, stops, runs[j], from[j], last[j], limits);
    }
    forall j, k | 0 <= j < k < |runs'| && k == j + 1
      ensures last'[j] < from'[k] && EndsFor(stops, runs'[j], last'[j], from'[k], limits)
    {
      if k < |runs| {
        assert EndsFor(stops, runs[j], last[j], from[k], limits);
      }
    }
  }

  lemma LongerPiece(stream: seq<Entry>, stops: seq<bool>, runs: seq<seq<Entry>>, from: seq<nat>, last: seq<nat>,
                    limits: Limits, i: nat)
    requires CutAt(stream, stops, runs, from, last, limits) && i < |stream| && i + 1 == |stops| && runs != []
    requires var run, end := runs[|runs| - 1], last[|last| - 1];
      end < i && limits.fileSize(run) < limits.maxOutputSize && forall k :: end < k < |stops| ==> !stops[k]
    ensures var n := |runs| - 1;
      CutAt(stream, stops, runs[..n] + [runs[n] + [stream[i]]], from, last[..n] + [i], limits)
  {
    var n := |runs| - 1;
    var run := runs[n] + [stream[i]];
    var runs', last' := runs[..n] + [run], last[..n] + [i];
    forall j | 0 <= j < |runs'| ensures Piece(stream, stops, runs'[j], from[j], last'[j], limits) {
      assert Piece(stream, stops, runs[j], from[j], last[j], limits);
      if j == n {
        forall m | 0 < m < |run| ensures limits.fileSize(run[..m]) < limits.maxOutputSize {
          assert run[..m] == if m == |runs[n]| then runs[n] else runs[n][..m];
        }
      }
    }
    forall j, k | 0 <= j < k < |runs'| && k == j + 1
      ensures last'[j] < from[k] && EndsFor(stops, runs'[j], last'[j], from[k], limits)
    {
      assert EndsFor(stops, runs[j], last[j], from[k], limits);
    }
  }

  /** Adds a kept entry and finishes the output when it is large enough. */
  method PutEntry(out: Outputs, e: Entry, limits: Limits) returns (r: Outputs)
    requires out.Ok()
    ensures r.Ok() && r.Contents() == out.Contents() + [e]
    ensures var out' := out.Add(e);
      r == if limits.fileSize(out'.builder.value) >= limits.maxOutputSize then out'.Close() else out'
  {
    r := out.Add(e);
    if limits.fileSize(r.builder.value) >= limits.maxOutputSize {
      r := r.Close();
    }
  }

  /** The outputs after the first `i` entries hold what is kept of them, cut where they should be. */
  ghost predicate Walked(stream: seq<Entry>, i: nat, stops: seq<bool>, out: Outputs, from: seq<nat>, last: seq<nat>,
                         limits: Limits, kept: seq<Entry>)
  {
    |stops| == i && out.Ok() && out.Contents() == kept && CutSoFar(stream, stops, out, from, last, limits) &&
    forall j :: 0 <= j < |last| ==> last[j] < i
  }

  /** Finishes the open output where a new one is asked for, and adds the entry unless it is dropped. */
  method Advance(stream: seq<Entry>, i: nat, stop: bool, drop: bool, out: Outputs, limits: Limits,
                 ghost stops: seq<bool>, ghost from: seq<nat>, ghost last: seq<nat>, ghost kept: seq<Entry>)
    returns (out': Outputs, ghost from': seq<nat>, ghost last': seq<nat>)
    requires Walked(stream, i, stops, out, from, last, limits, kept) && i < |stream|
    ensures Walked(stream, i + 1, stops + [stop], out', from', last', limits,
                   kept + if drop then [] else [stream[i]])
  {
    hide CutSoFar, Flatten;
    StopCuts(stream, stops, out, from, last, limits, stop);
    out', from', last' := out, from, last;
    if stop {
      out' := out'.Close();
    }
    if !drop {
      from', last' := AddCuts(stream, stops + [stop], out', from, last, limits);
      out' := PutEntry(out', stream[i], limits);
    }
  }

  lemma NothingWalked(c: Compaction, stream: seq<Entry>, limits: Limits, smallest: nat, v: Version, level: nat)
    ensures Walked(stream, 0, [], Outputs([], None), [], [], limits, Kept(stream, 0, smallest, v, level))
    ensures StopsOk(c.grandparents, stream, [], []) && Progress(stream, 0, false, 0.0, MAX_SEQUENCE)
    ensures !c.seenKey && c.grandparentIndex == 0 && c.overlappedBytes == 0 ==> Counting(c, [], [], 0)
  {
  }

  lemma AllWalked(stream: seq<Entry>, stops: seq<bool>, out: Outputs, from: seq<nat>, last: seq<nat>, limits: Limits,
                  kept: seq<Entry>)
    requires Walked(stream, |stream|, stops, out, from, last, limits, kept)
    ensures out.Ok() && Flatten(out.Close().done) == kept && |stops| == |stream|
    ensures CutAt(stream, stops, out.Close().done, from, last, limits)
  {
    assert out.Close().Runs() == out.Close().done && out.Close().Contents() == Flatten(out.Close().done);
  }

  /** The loop's bookkeeping of the current user key, and the rules for the entry. */
  method Decide(c: Compaction, stream: seq<Entry>, i: nat, currentUserKey: UserKey, hasCurrentUserKey: bool,
                lastSequenceForKey: nat, smallest: nat)
    returns (drop: bool, currentUserKey': UserKey, hasCurrentUserKey': bool, lastSequenceForKey': nat)
    requires VersionOk(c.version) && c.Valid() && Sorted(stream) && i < |stream| && c.Behind(stream[i].key.user)
    requires Progress(stream, i, hasCurrentUserKey, currentUserKey, lastSequenceForKey)
    modifies c`levelPtrs
    ensures c.Valid() && (i + 1 < |stream| ==> c.Behind(stream[i + 1].key.user))
    ensures Progress(stream, i + 1, hasCurrentUserKey', currentUserKey', lastSequenceForKey')
    ensures drop == Drops(stream, i, smallest, c.version, c.level)
  {
    hide c.Valid, c.Behind, BaseLevel, Sorted, VersionOk;
    var key := stream[i].key;
    currentUserKey', hasCurrentUserKey', lastSequenceForKey' := currentUserKey, hasCurrentUserKey, lastSequenceForKey;
    if !hasCurrentUserKey || key.user != currentUserKey {
      currentUserKey', hasCurrentUserKey' := key.user, true;
      lastSequenceForKey' := MAX_SEQUENCE;
    }
    assert lastSequenceForKey' == LastSequenceForKey(stream, i);
    drop := DropEntry(c, key, lastSequenceForKey', smallest);
    lastSequenceForKey' := key.sequence;
    if i + 1 < |stream| { BehindNext(c, stream, i); }
  }

  /** Walks the merged input once, dropping and cutting.  `fileSize` stands for the table
      builder's running file size; the outputs together hold exactly the kept entries.  An output ends
      where it is large enough or the grandparent overlap asks for a new one, and nowhere else. */
  method DoCompactionWork(c: Compaction, stream: seq<Entry>, smallest: nat, limits: Limits)
    returns (outputs: seq<seq<Entry>>, ghost passed: seq<nat>, ghost stops: seq<bool>, ghost from: seq<nat>,
             ghost last: seq<nat>)
    requires VersionOk(c.version) && c.Valid() && Sorted(stream)
    requires stream != [] ==> c.Behind(stream[0].key.user)
    modifies c
    ensures Flatten(outputs) == Kept(stream, |stream|, smallest, c.version, c.level)
    ensures forall i :: 0 <= i < |outputs| ==> outputs[i] != []
    ensures CutAt(stream, stops, outputs, from, last, limits) && |stops| == |stream|
    ensures old(!c.seenKey && c.grandparentIndex == 0 && c.overlappedBytes == 0) ==>
      StopsOk(c.grandparents, stream, passed, stops)
  {
    hide Walked, CutAt, Kept, Drops, Counting, StopsOk, Progress, c.Valid, c.Behind, Sorted, VersionOk, Flatten;
    var out := Outputs([], None);
    var currentUserKey, hasCurrentUserKey := 0.0, false;
    var lastSequenceForKey := MAX_SEQUENCE;
    var i := 0;
    ghost var mark, counting := 0, !c.seenKey && c.grandparentIndex == 0 && c.overlappedBytes == 0;
    passed, stops, from, last := [], [], [], [];
    NothingWalked(c, stream, limits, smallest, c.version, c.level);
    while i < |stream|
      invariant i <= |stream| && |stops| == i && c.Valid()
      invariant Progress(stream, i, hasCurrentUserKey, currentUserKey, lastSequenceForKey)
      invariant i < |stream| ==> c.Behind(stream[i].key.user)
      invariant Walked(stream, i, stops, out, from, last, limits, Kept(stream, i, smallest, c.version, c.level))
      invariant counting ==> Counting(c, passed, stops, mark) && StopsOk(c.grandparents, stream, passed, stops)
    {
      ghost var p;
      var stop, drop;
      stop, p, mark := StopBefore(c, stream, i, passed, stops, mark);
      drop, currentUserKey, hasCurrentUserKey, lastSequenceForKey :=
        Decide(c, stream, i, currentUserKey, hasCurrentUserKey, lastSequenceForKey, smallest);
      KeptStep(stream, i, smallest, c.version, c.level, drop);
      out, from, last := Advance(stream, i, stop, drop, out, limits, stops, from, last,
        Kept(stream, i, smallest, c.version, c.level));
      passed, stops := passed + [p], stops + [stop];
      i := i + 1;
    }
    AllWalked(stream, stops, out, from, last, limits, Kept(stream, i, smallest, c.version, c.level));
    out := out.Close();
    outputs := out.done;
  }
}
