/** DBIter (db_iter.cc): folds the many versions of a user key into the one row visible at a
    sequence number, in both directions.  The class is proved to be a plain cursor over the sorted
    rows of the map that the versioned store shows at that sequence number.
  */
module DbIter {
  import opened Keys
  import opened Cursors

  datatype Row = Row(key: UserKey, value: Bytes)

  // ---------- the visible map ----------

  /** Entry `j` is not newer than the snapshot. */
  predicate Eligible(run: seq<Entry>, s: nat, j: nat)
    requires j < |run|
  {
    run[j].key.sequence <= s
  }

  /** Entry `j` is the newest eligible version of its user key and is not a deletion. */
  predicate Shown(run: seq<Entry>, s: nat, j: nat)
    requires j < |run|
  {
    Eligible(run, s, j) && run[j].key.kind.Value? &&
    forall i :: 0 <= i < j && Eligible(run, s, i) ==> run[i].key.user != run[j].key.user
  }

  ghost predicate NoneShown(run: seq<Entry>, s: nat, lo: int, hi: int)
    requires 0 <= lo && hi <= |run|
  {
    forall j :: lo <= j < hi ==> !Shown(run, s, j)
  }

  /** The rows among the first `n` entries. */
  function RowsUpTo(run: seq<Entry>, s: nat, n: nat): seq<Row>
    requires n <= |run|
  {
    if n == 0 then []
    else RowsUpTo(run, s, n - 1) + if Shown(run, s, n - 1) then [Row(run[n - 1].key.user, run[n - 1].value)] else []
  }

  function Rows(run: seq<Entry>, s: nat): seq<Row> {
    RowsUpTo(run, s, |run|)
  }

  /** How many rows come before entry `j`. */
  function Rank(run: seq<Entry>, s: nat, j: nat): nat
    requires j <= |run|
  {
    |RowsUpTo(run, s, j)|
  }

  /** The number of rows before `target`: where Seek lands. */
  function RowIndex(rows: seq<Row>, target: UserKey): (i: nat)
    ensures i <= |rows|
    ensures forall j :: 0 <= j < i ==> rows[j].key < target
    ensures i < |rows| ==> rows[i].key >= target
  {
    if rows == [] || rows[0].key >= target then 0 else 1 + RowIndex(rows[1..], target)
  }

  ghost function RowSeek(rows: seq<Row>): UserKey -> int {
    target => RowIndex(rows, target)
  }

  lemma {:induction false} RowsPrefix(run: seq<Entry>, s: nat, a: nat, b: nat)
    requires a <= b <= |run|
    ensures Rank(run, s, a) <= Rank(run, s, b)
    ensures RowsUpTo(run, s, b)[..Rank(run, s, a)] == RowsUpTo(run, s, a)
    decreases b - a
  {
    if a == b {
    } else {
      RowsPrefix(run, s, a, b - 1);
    }
  }

  /** A shown entry is the row at its rank. */
  lemma ShownRow(run: seq<Entry>, s: nat, j: nat)
    requires j < |run| && Shown(run, s, j)
    ensures Rank(run, s, j) < |Rows(run, s)|
    ensures Rows(run, s)[Rank(run, s, j)] == Row(run[j].key.user, run[j].value)
  {
    RowsPrefix(run, s, j + 1, |run|);
    assert RowsUpTo(run, s, j + 1)[Rank(run, s, j)] == Row(run[j].key.user, run[j].value);
  }

  /** A stretch that shows nothing has no rows. */
  lemma {:induction false} SkipRank(run: seq<Entry>, s: nat, a: nat, b: nat)
    requires a <= b <= |run| && NoneShown(run, s, a, b)
    ensures Rank(run, s, b) == Rank(run, s, a)
    decreases b - a
  {
    if a == b {
    } else {
      SkipRank(run, s, a, b - 1);
    }
  }

  lemma {:induction false} RowHasEntry(run: seq<Entry>, s: nat, n: nat, i: nat) returns (j: nat)
    requires n <= |run| && i < Rank(run, s, n)
    ensures j < n && Shown(run, s, j) && Rank(run, s, j) == i
    ensures RowsUpTo(run, s, n)[i] == Row(run[j].key.user, run[j].value)
  {
    if i < Rank(run, s, n - 1) {
      j := RowHasEntry(run, s, n - 1, i);
    } else {
      j := n - 1;
    }
  }

  lemma UserAscends(run: seq<Entry>, i: nat, j: nat)
    requires Sorted(run) && i <= j < |run|
    ensures run[i].key.user <= run[j].key.user
  {
    assert i < j ==> Less(run[i].key, run[j].key);
  }

  lemma OlderFollows(run: seq<Entry>, i: nat, j: nat)
    requires Sorted(run) && i <= j < |run| && run[i].key.user == run[j].key.user
    ensures run[i].key.sequence >= run[j].key.sequence
  {
    assert i < j ==> Less(run[i].key, run[j].key);
  }

  lemma RowsAscend(run: seq<Entry>, s: nat, i: nat, j: nat)
    requires Sorted(run) && i < j < |Rows(run, s)|
    ensures Rows(run, s)[i].key < Rows(run, s)[j].key
  {
    var a := RowHasEntry(run, s, |run|, i);
    var b := RowHasEntry(run, s, |run|, j);
    if a > b {
      RowsPrefix(run, s, b, a);
    }
    UserAscends(run, a, b);
  }

  /** The rows are exactly the map a reader sees at sequence number `s`. */
  lemma RowsAreTheVisibleMap(run: seq<Entry>, s: nat, k: UserKey, v: Bytes)
    requires Sorted(run) && UniqueSeqs(iset e | e in run)
    ensures Row(k, v) in Rows(run, s) <==> Reads((iset e | e in run), k, s) == Some(v)
  {
    var all := iset e | e in run;
    if Row(k, v) in Rows(run, s) {
      var i :| 0 <= i < |Rows(run, s)| && Rows(run, s)[i] == Row(k, v);
      var j := RowHasEntry(run, s, |run|, i);
      ShownIsNewest(run, s, j);
      ReadsNewest(all, k, s, run[j]);
    }
    if Reads(all, k, s) == Some(v) {
      var e :| IsNewest(all, k, s, e);
      ReadsNewest(all, k, s, e);
      var j: nat :| j < |run| && run[j] == e;
      NewestIsShown(run, s, k, j);
      ShownRow(run, s, j);
    }
  }

  lemma ShownIsNewest(run: seq<Entry>, s: nat, j: nat)
    requires Sorted(run) && j < |run| && Shown(run, s, j)
    ensures IsNewest((iset e | e in run), run[j].key.user, s, run[j])
  {
    forall o | o in run && Matches(o, run[j].key.user, s) ensures o.key.sequence <= run[j].key.sequence {
      var i: nat :| i < |run| && run[i] == o;
      assert Eligible(run, s, i);
      OlderFollows(run, j, i);
    }
  }

  lemma NewestIsShown(run: seq<Entry>, s: nat, k: UserKey, j: nat)
    requires Sorted(run) && j < |run| && UniqueSeqs(iset e | e in run)
    requires IsNewest((iset e | e in run), k, s, run[j]) && run[j].key.kind.Value?
    ensures Shown(run, s, j)
  {
    forall i: nat | i < j && Eligible(run, s, i) ensures run[i].key.user != run[j].key.user {
      if run[i].key.user == k {
        assert Matches(run[i], k, s) && run[i] in run;
        OlderFollows(run, i, j);
      }
    }
  }

  /** Seeking the internal key (target, s) passes exactly the rows before `target`. */
  lemma SeekRank(run: seq<Entry>, s: nat, target: UserKey)
    requires Sorted(run)
    ensures Rank(run, s, SeekIndex(run, SeekKey(target, s))) == RowIndex(Rows(run, s), target)
  {
    var p, rows := SeekIndex(run, SeekKey(target, s)), Rows(run, s);
    var i, r := RowIndex(rows, target), Rank(run, s, p);
    RowsPrefix(run, s, p, |run|);
    if i < r {
      var j := RowHasEntry(run, s, p, i);
    }
    if r < i {
      var j := RowHasEntry(run, s, |run|, r);
      if j < p {
        RowsPrefix(run, s, j + 1, p);
      } else {
        assert !Less(run[p].key, SeekKey(target, s));
        UserAscends(run, p, j);
      }
    }
  }

  // ---------- the iterator ----------

  datatype Direction = Forward | Reverse

  class DBIter {
    const iter: Cursor
    const sequence: nat
    var savedKey: Option<UserKey>
    var savedValue: Bytes
    var direction: Direction
    var valid: bool
    /** The entry behind the current row. */
    ghost var at: nat

    ghost predicate Inv() reads this, iter {
      iter.Valid() && (valid ==> at < |iter.entries| && Shown(iter.entries, sequence, at) && PositionOk())
    }

    /** Forward: the inner iterator is at the current entry.  Reverse: it is before it, and only
        entries too new for the snapshot lie between; the row itself is saved. */
    ghost predicate PositionOk()
      requires at < |iter.entries|
      reads this, iter
    {
      match direction
      case Forward => iter.pos == Some(at)
      case Reverse =>
        (iter.pos.Some? ==> iter.pos.value < at && iter.entries[iter.pos.value].key.user < iter.entries[at].key.user) &&
        HiddenBetween(iter.entries, sequence, if iter.pos.Some? then iter.pos.value + 1 else 0, at) &&
        savedKey == Some(iter.entries[at].key.user) && savedValue == iter.entries[at].value
    }

    ghost function TheRows(): seq<Row> {
      Rows(iter.entries, sequence)
    }

    /** The cursor this iterator implements. */
    ghost function Position(): (p: Option<nat>)
      requires Inv()
      reads this, iter
    {
      if valid then Some(Rank(iter.entries, sequence, at)) else None
    }

    constructor (iter: Cursor, sequence: nat)
      requires iter.Valid()
      ensures Inv() && this.iter == iter && this.sequence == sequence && Position() == None
    {
      this.iter, this.sequence := iter, sequence;
      savedKey, savedValue, direction, valid, at := None, [], Forward, false, 0;
    }

    method Current() returns (row: Option<Row>)
      requires Inv()
      ensures Position().Some? ==> Position().value < |TheRows()| && row == Some(TheRows()[Position().value])
      ensures Position().None? ==> row == None
    {
      if !valid { return None; }
      ShownRow(iter.entries, sequence, at);
      if direction.Forward? {
        row := Some(Row(iter.Key().user, iter.Value()));
      } else {
        row := Some(Row(savedKey.value, savedValue));
      }
    }

    /** Scans forward from the inner position to the first row, past `savedKey` when skipping. */
    method FindNextUserEntry(skipping: bool)
      requires iter.Valid() && iter.pos.Some? && direction.Forward?
      requires skipping ==> savedKey.Some? && NoneEligibleBefore(iter.entries, sequence, iter.pos.value, savedKey.value)
      requires SkipOk(iter.entries, sequence, skipping, savedKey, iter.pos.value)
      modifies this, iter
      ensures Inv() && direction.Forward?
      ensures valid ==> at >= old(iter.pos.value) && !Passed(iter.entries, skipping, old(savedKey), at)
      ensures AllPassed(iter.entries, sequence, skipping, old(savedKey), old(iter.pos.value),
                        if valid then at else |iter.entries|)
    {
      hide SkipSource, AllPassed, SkipOk, Shown, Sorted, HiddenBetween, NoneEligibleBefore;
      ghost var start, run, skip, deletion := iter.pos.value, iter.entries, savedKey, -1;
      var skipNow := skipping;
      SkipStarts(run, sequence, skipping, skip, start);
      while iter.pos.Some?
        invariant iter.Valid() && direction.Forward?
        invariant skipNow ==> savedKey.Some?
        invariant SkipSource(run, sequence, skipping, skip, skipNow, savedKey, start, deletion)
        invariant deletion < if iter.pos.Some? then iter.pos.value else |run|
        invariant iter.pos.Some? ==> start <= iter.pos.value && SkipOk(run, sequence, skipNow, savedKey, iter.pos.value)
        invariant AllPassed(run, sequence, skipping, skip, start, if iter.pos.Some? then iter.pos.value else |run|)
        decreases |run| - if iter.pos.Some? then iter.pos.value else |run|
      {
        var key := iter.Key();
        if key.sequence <= sequence {
          if key.kind.Deletion? {
            SkipFromDeletion(run, sequence, skipping, skip, skipNow, savedKey, start, deletion, iter.pos.value);
            savedKey, skipNow := Some(key.user), true;
            deletion := iter.pos.value;
          } else if skipNow && key.user <= savedKey.value {
            HiddenBySkip(run, sequence, skipping, skip, skipNow, savedKey, start, deletion, iter.pos.value);
          } else {
            VisibleHere(run, sequence, skipping, skip, skipNow, savedKey, start, deletion, iter.pos.value);
            valid, savedKey, at := true, None, iter.pos.value;
            return;
          }
        }
        SkipAdvances(run, sequence, skipNow, savedKey, iter.pos.value);
        PassedNext(run, sequence, skipping, skip, start, iter.pos.value);
        iter.Next();
      }
      savedKey, valid := None, false;
    }

    method Next()
      requires Inv() && Position().Some?
      modifies this, iter
      ensures Inv() && Position() == Clip(old(Position()).value + 1, |TheRows()|)
    {
      ghost var was, run := at, iter.entries;
      if direction.Reverse? {
        direction := Forward;
        if iter.pos.None? {
          iter.SeekToFirst();
        } else {
          iter.Next();
        }
        // the inner iterator was before the current entry, so it cannot be off the end here
        assert iter.pos.Some?;
      } else {
        savedKey := Some(iter.Key().user);
      }
      NextSetUp(run, sequence, was, iter.pos.value);
      ghost var start := iter.pos.value;
      FindNextUserEntry(true);
      NextLands(run, sequence, was, start, valid, at);
    }

    /** Scans backward from the inner position to the last row at or before it. */
    method FindPrevUserEntry()
      requires iter.Valid() && direction.Reverse?
      modifies this, iter
      ensures Inv()
      ensures var start := if old(iter.pos).Some? then old(iter.pos).value + 1 else 0;
        (valid ==> at < start) && NoneShown(iter.entries, sequence, if valid then at + 1 else 0, start)
    {
      hide BackwardOk, CandidateOk, NoneShown, Shown, Sorted;
      ghost var start, run := if iter.pos.Some? then iter.pos.value + 1 else 0, iter.entries;
      var kind := Deletion;
      BackwardStarts(run, sequence, start, savedKey, savedValue, at);
      while iter.pos.Some?
        invariant iter.Valid() && direction.Reverse?
        invariant kind.Value? ==> savedKey.Some?
        invariant BackwardOk(run, sequence, Left(iter.pos), start, kind, savedKey, savedValue, at)
        decreases Left(iter.pos)
      {
        var key := iter.Key();
        if key.sequence <= sequence {
          if kind.Value? && key.user < savedKey.value {
            break;
          }
          BackwardTakes(run, sequence, Left(iter.pos), start, kind, savedKey, savedValue, at);
          kind := key.kind;
          if kind.Deletion? {
            savedKey, savedValue := None, [];
          } else {
            savedKey, savedValue, at := Some(key.user), iter.Value(), iter.pos.value;
          }
        } else {
          BackwardPasses(run, sequence, Left(iter.pos), start, kind, savedKey, savedValue, at);
        }
        iter.Prev();
      }
      BackwardEnds(run, sequence, Left(iter.pos), start, kind, savedKey, savedValue, at);
      if kind.Deletion? {
        valid, savedKey, savedValue, direction := false, None, [], Forward;
      } else {
        valid := true;
      }
    }

    method Prev()
      requires Inv() && Position().Some?
      modifies this, iter
      ensures Inv() && Position() == Clip(old(Position()).value - 1, |TheRows()|)
    {
      hide Shown;
      ghost var was, run := at, iter.entries;
      ShownRow(run, sequence, was);
      if direction.Forward? {
        savedKey := Some(iter.Key().user);
        iter.Prev();
        while iter.pos.Some? && iter.Key().user >= savedKey.value
          invariant iter.Valid() && savedKey == Some(run[was].key.user) && Left(iter.pos) <= was
          invariant forall j :: Left(iter.pos) <= j <= was ==> run[j].key.user == run[was].key.user
          decreases Left(iter.pos)
        {
          UserAscends(run, iter.pos.value, was);
          iter.Prev();
        }
        if iter.pos.None? {
          valid, savedKey, savedValue := false, None, [];
          SameKeyHidden(run, sequence, 0, was);
          SkipRank(run, sequence, 0, was);
          return;
        }
        SameKeyHidden(run, sequence, Left(iter.pos), was);
        direction := Reverse;
      }
      ghost var start := Left(iter.pos);
      FindPrevUserEntry();
      PrevLands(run, sequence, was, start, valid, at);
    }

    method Seek(target: UserKey)
      requires Inv()
      modifies this, iter
      ensures Inv() && Position() == Clip(RowIndex(TheRows(), target), |TheRows()|)
    {
      ghost var run := iter.entries;
      direction, savedValue, savedKey := Forward, [], Some(target);
      iter.Seek(SeekKey(target, sequence));
      if iter.pos.Some? {
        SeekSetUp(run, sequence, target, iter.pos.value);
        ghost var start := iter.pos.value;
        FindNextUserEntry(false);
        ForwardLands(run, sequence, start, valid, at);
      } else {
        valid := false;
      }
      SeekRank(run, sequence, target);
    }

    method SeekToFirst()
      requires Inv()
      modifies this, iter
      ensures Inv() && Position() == Clip(0, |TheRows()|)
    {
      direction, savedValue := Forward, [];
      iter.SeekToFirst();
      if iter.pos.Some? {
        FindNextUserEntry(false);
        ForwardLands(iter.entries, sequence, 0, valid, at);
      } else {
        valid := false;
      }
    }

    method SeekToLast()
      requires Inv()
      modifies this, iter
      ensures Inv() && Position() == Clip(|TheRows()| - 1, |TheRows()|)
    {
      direction, savedValue := Reverse, [];
      iter.SeekToLast();
      FindPrevUserEntry();
      BackwardLands(iter.entries, sequence, |iter.entries|, valid, at);
    }

    method Apply(move: Move<UserKey>)
      requires Inv()
      modifies this, iter
      ensures Inv() && Position() == Step(|TheRows()|, old(Position()), move, RowSeek(TheRows()))
    {
      match move
      case SeekToFirst => SeekToFirst();
      case SeekToLast => SeekToLast();
      case Seek(target) => Seek(target);
      case Next => if valid { Next(); }
      case Prev => if valid { Prev(); }
    }

    /** Any sequence of calls, with any changes of direction, moves like a cursor over the rows. */
    method Drive(moves: seq<Move<UserKey>>)
      requires Inv()
      modifies this, iter
      ensures Inv() && Position() == Run(|TheRows()|, old(Position()), moves, RowSeek(TheRows()))
    {
      for i := 0 to |moves|
        invariant Inv()
        invariant Position() == Run(|TheRows()|, old(Position()), moves[..i], RowSeek(TheRows()))
      {
        assert moves[..i + 1][..i] == moves[..i];
        Apply(moves[i]);
      }
      assert moves[..|moves|] == moves;
    }
  }

  // ---------- scanning forward ----------

  /** How many entries an inner position leaves to its left, itself included. */
  function Left(pos: Option<nat>): nat {
    if pos.Some? then pos.value + 1 else 0
  }

  ghost predicate HiddenBetween(run: seq<Entry>, s: nat, lo: int, hi: int)
    requires 0 <= lo && hi <= |run|
  {
    forall j :: lo <= j < hi ==> !Eligible(run, s, j)
  }

  predicate Passed(run: seq<Entry>, skipping: bool, skip: Option<UserKey>, j: nat)
    requires j < |run|
  {
    skipping && skip.Some? && run[j].key.user <= skip.value
  }

  ghost predicate AllPassed(run: seq<Entry>, s: nat, skipping: bool, skip: Option<UserKey>, lo: nat, hi: nat)
    requires hi <= |run|
  {
    forall j :: lo <= j < hi && Shown(run, s, j) ==> Passed(run, skipping, skip, j)
  }

  ghost predicate NoneEligibleBefore(run: seq<Entry>, s: nat, start: nat, skip: UserKey) {
    forall j :: start <= j < |run| && Eligible(run, s, j) ==> run[j].key.user >= skip
  }

  /** Every eligible entry before `p` has a user key that is being skipped or is wholly behind. */
  ghost predicate SkipOk(run: seq<Entry>, s: nat, skipping: bool, skip: Option<UserKey>, p: nat)
    requires p < |run|
  {
    forall i :: 0 <= i < p && Eligible(run, s, i) ==>
      Passed(run, skipping, skip, i) || run[i].key.user < run[p].key.user
  }

  /** The key being skipped is the caller's or that of the last deletion marker met. */
  ghost predicate SkipSource(run: seq<Entry>, s: nat, skipping: bool, skip: Option<UserKey>,
                             skipNow: bool, saved: Option<UserKey>, start: nat, deletion: int)
  {
    (skipping ==> skip.Some? && NoneEligibleBefore(run, s, start, skip.value)) &&
    if deletion < 0 then saved == skip && skipNow == skipping
    else
      start <= deletion < |run| && Eligible(run, s, deletion) &&
      skipNow && saved == Some(run[deletion].key.user)
  }

  lemma HiddenBySkip(run: seq<Entry>, s: nat, skipping: bool, skip: Option<UserKey>,
                     skipNow: bool, saved: Option<UserKey>, start: nat, deletion: int, here: nat)
    requires Sorted(run) && SkipSource(run, s, skipping, skip, skipNow, saved, start, deletion)
    requires deletion < here < |run| && skipNow && saved.Some? && run[here].key.user <= saved.value
    ensures Shown(run, s, here) ==> Passed(run, skipping, skip, here)
  {
    if deletion >= 0 {
      UserAscends(run, deletion, here);
    }
  }

  lemma VisibleHere(run: seq<Entry>, s: nat, skipping: bool, skip: Option<UserKey>,
                    skipNow: bool, saved: Option<UserKey>, start: nat, deletion: int, here: nat)
    requires SkipSource(run, s, skipping, skip, skipNow, saved, start, deletion) && here < |run|
    requires SkipOk(run, s, skipNow, saved, here) && (skipNow ==> saved.Some?)
    requires Eligible(run, s, here) && run[here].key.kind.Value? && !(skipNow && run[here].key.user <= saved.value)
    ensures Shown(run, s, here) && !Passed(run, skipping, skip, here)
  {
    forall i: nat | i < here && Eligible(run, s, i) ensures run[i].key.user != run[here].key.user {
      assert Passed(run, skipNow, saved, i) || run[i].key.user < run[here].key.user;
    }
  }

  lemma SkipStarts(run: seq<Entry>, s: nat, skipping: bool, skip: Option<UserKey>, start: nat)
    requires start < |run|
    requires skipping ==> skip.Some? && NoneEligibleBefore(run, s, start, skip.value)
    ensures SkipSource(run, s, skipping, skip, skipping, skip, start, -1)
    ensures AllPassed(run, s, skipping, skip, start, start)
  {
  }

  /** A deletion marker makes its user key the one being skipped. */
  lemma SkipFromDeletion(run: seq<Entry>, s: nat, skipping: bool, skip: Option<UserKey>,
                         skipNow: bool, saved: Option<UserKey>, start: nat, deletion: int, here: nat)
    requires SkipSource(run, s, skipping, skip, skipNow, saved, start, deletion) && start <= here < |run|
    requires SkipOk(run, s, skipNow, saved, here) && Sorted(run)
    requires Eligible(run, s, here) && run[here].key.kind.Deletion?
    ensures SkipSource(run, s, skipping, skip, true, Some(run[here].key.user), start, here)
    ensures SkipOk(run, s, true, Some(run[here].key.user), here) && !Shown(run, s, here)
  {
    forall i: nat | i < here ensures run[i].key.user <= run[here].key.user {
      UserAscends(run, i, here);
    }
  }

  lemma PassedNext(run: seq<Entry>, s: nat, skipping: bool, skip: Option<UserKey>, lo: nat, p: nat)
    requires p < |run| && AllPassed(run, s, skipping, skip, lo, p)
    requires Eligible(run, s, p) && Shown(run, s, p) ==> Passed(run, skipping, skip, p)
    ensures AllPassed(run, s, skipping, skip, lo, p + 1)
  {
  }

  lemma SkipAdvances(run: seq<Entry>, s: nat, skipping: bool, skip: Option<UserKey>, p: nat)
    requires Sorted(run) && p < |run| && SkipOk(run, s, skipping, skip, p)
    requires Eligible(run, s, p) ==> Passed(run, skipping, skip, p)
    ensures p + 1 < |run| ==> SkipOk(run, s, skipping, skip, p + 1)
  {
    if p + 1 < |run| {
      UserAscends(run, p, p + 1);
    }
  }

  /** Next from the row of entry `was`, the inner iterator at `p` with only hidden entries between. */
  lemma NextSetUp(run: seq<Entry>, s: nat, was: nat, p: nat)
    requires Sorted(run) && p <= was < |run| && Shown(run, s, was) && HiddenBetween(run, s, p, was)
    ensures NoneEligibleBefore(run, s, p, run[was].key.user)
    ensures SkipOk(run, s, true, Some(run[was].key.user), p)
  {
    forall j: nat | p <= j < |run| && Eligible(run, s, j) ensures run[j].key.user >= run[was].key.user {
      UserAscends(run, was, j);
    }
    forall i: nat | i < p && Eligible(run, s, i) ensures run[i].key.user <= run[was].key.user {
      UserAscends(run, i, was);
    }
  }

  /** The first row found from `start` has the rank of `start`. */
  lemma ForwardLands(run: seq<Entry>, s: nat, start: nat, valid: bool, at: nat)
    requires start <= |run| && (valid ==> start <= at < |run| && Shown(run, s, at))
    requires NoneShown(run, s, start, if valid then at else |run|)
    ensures (if valid then Some(Rank(run, s, at)) else None) == Clip(Rank(run, s, start), |Rows(run, s)|)
  {
    SkipRank(run, s, start, if valid then at else |run|);
    if valid {
      ShownRow(run, s, at);
    }
  }

  lemma NextLands(run: seq<Entry>, s: nat, was: nat, start: nat, valid: bool, at: nat)
    requires Sorted(run) && start <= was < |run| && Shown(run, s, was) && HiddenBetween(run, s, start, was)
    requires valid ==> start <= at < |run| && Shown(run, s, at) && !Passed(run, true, Some(run[was].key.user), at)
    requires AllPassed(run, s, true, Some(run[was].key.user), start, if valid then at else |run|)
    ensures (if valid then Some(Rank(run, s, at)) else None) == Clip(Rank(run, s, was) + 1, |Rows(run, s)|)
  {
    forall j: nat | was < j < (if valid then at else |run|) ensures !Shown(run, s, j) {
      UserAscends(run, was, j);
    }
    assert valid ==> was < at;
    ForwardLands(run, s, was + 1, valid, at);
  }

  lemma SeekSetUp(run: seq<Entry>, s: nat, target: UserKey, start: nat)
    requires Sorted(run) && start < |run| && start == SeekIndex(run, SeekKey(target, s))
    ensures SkipOk(run, s, false, Some(target), start)
  {
  }

  // ---------- scanning backward ----------

  /** Entries left of `start` have been scanned down to `left`: the only one that may be shown is
      the saved candidate, and since it only hidden entries were met. */
  ghost predicate BackwardOk(run: seq<Entry>, s: nat, left: nat, start: nat, kind: ValueType,
                             savedKey: Option<UserKey>, savedValue: Bytes, at: nat)
  {
    left <= start <= |run| &&
    (kind.Value? ==> CandidateOk(run, s, left, start, savedKey, savedValue, at)) &&
    forall j :: left <= j < start && Shown(run, s, j) ==> kind.Value? && j == at
  }

  ghost predicate CandidateOk(run: seq<Entry>, s: nat, left: nat, start: nat,
                              savedKey: Option<UserKey>, savedValue: Bytes, at: nat)
    requires start <= |run|
  {
    left <= at < start && Eligible(run, s, at) && run[at].key.kind.Value? &&
    savedKey == Some(run[at].key.user) && savedValue == run[at].value && HiddenBetween(run, s, left, at)
  }

  lemma BackwardStarts(run: seq<Entry>, s: nat, start: nat, savedKey: Option<UserKey>, savedValue: Bytes, at: nat)
    requires start <= |run|
    ensures BackwardOk(run, s, start, start, Deletion, savedKey, savedValue, at)
  {
  }

  lemma BackwardPasses(run: seq<Entry>, s: nat, left: nat, start: nat, kind: ValueType,
                       savedKey: Option<UserKey>, savedValue: Bytes, at: nat)
    requires BackwardOk(run, s, left, start, kind, savedKey, savedValue, at)
    requires 0 < left <= |run| && !Eligible(run, s, left - 1)
    ensures BackwardOk(run, s, left - 1, start, kind, savedKey, savedValue, at)
  {
  }

  /** An eligible entry of the saved user key, or any when none is saved, replaces what is saved. */
  lemma BackwardTakes(run: seq<Entry>, s: nat, left: nat, start: nat, kind: ValueType,
                      savedKey: Option<UserKey>, savedValue: Bytes, at: nat)
    requires Sorted(run) && BackwardOk(run, s, left, start, kind, savedKey, savedValue, at)
    requires 0 < left <= |run| && Eligible(run, s, left - 1)
    requires kind.Value? ==> savedKey.Some? && run[left - 1].key.user >= savedKey.value
    ensures run[left - 1].key.kind.Deletion? ==> BackwardOk(run, s, left - 1, start, Deletion, None, [], at)
    ensures run[left - 1].key.kind.Value? ==>
      BackwardOk(run, s, left - 1, start, Value, Some(run[left - 1].key.user), run[left - 1].value, left - 1)
  {
    if kind.Value? {
      UserAscends(run, left - 1, at);
    }
  }

  lemma BackwardEnds(run: seq<Entry>, s: nat, left: nat, start: nat, kind: ValueType,
                     savedKey: Option<UserKey>, savedValue: Bytes, at: nat)
    requires Sorted(run) && BackwardOk(run, s, left, start, kind, savedKey, savedValue, at)
    requires left == 0 || (kind.Value? && savedKey.Some? && run[left - 1].key.user < savedKey.value)
    ensures kind.Deletion? ==> NoneShown(run, s, 0, start)
    ensures kind.Value? ==> left <= at < start <= |run| && savedKey == Some(run[at].key.user)
    ensures kind.Value? ==> savedValue == run[at].value
    ensures kind.Value? ==> HiddenBetween(run, s, left, at) && Shown(run, s, at) && NoneShown(run, s, at + 1, start)
  {
    if kind.Value? {
      CandidateShown(run, s, left, start, savedKey, savedValue, at);
    }
  }

  lemma CandidateShown(run: seq<Entry>, s: nat, left: nat, start: nat,
                       savedKey: Option<UserKey>, savedValue: Bytes, at: nat)
    requires Sorted(run) && start <= |run| && CandidateOk(run, s, left, start, savedKey, savedValue, at)
    requires left > 0 ==> run[left - 1].key.user < run[at].key.user
    ensures Shown(run, s, at)
  {
    forall i: nat | i < at && Eligible(run, s, i) ensures run[i].key.user != run[at].key.user {
      UserAscends(run, i, left - 1);
    }
  }

  lemma SameKeyHidden(run: seq<Entry>, s: nat, lo: nat, was: nat)
    requires lo <= was < |run| && Shown(run, s, was)
    requires forall j :: lo <= j <= was ==> run[j].key.user == run[was].key.user
    ensures HiddenBetween(run, s, lo, was) && NoneShown(run, s, lo, was)
  {
  }

  lemma BackwardLands(run: seq<Entry>, s: nat, start: nat, valid: bool, at: nat)
    requires start <= |run| && (valid ==> at < start && Shown(run, s, at))
    requires NoneShown(run, s, if valid then at + 1 else 0, start)
    ensures (if valid then Some(Rank(run, s, at)) else None) == Clip(Rank(run, s, start) - 1, |Rows(run, s)|)
  {
    SkipRank(run, s, if valid then at + 1 else 0, start);
    if valid {
      ShownRow(run, s, at);
    }
  }

  lemma PrevLands(run: seq<Entry>, s: nat, was: nat, start: nat, valid: bool, at: nat)
    requires start <= was < |run| && Shown(run, s, was) && HiddenBetween(run, s, start, was)
    requires valid ==> at < start && Shown(run, s, at)
    requires NoneShown(run, s, if valid then at + 1 else 0, start)
    ensures (if valid then Some(Rank(run, s, at)) else None) == Clip(Rank(run, s, was) - 1, |Rows(run, s)|)
  {
    SkipRank(run, s, start, was);
    BackwardLands(run, s, start, valid, at);
  }
}
