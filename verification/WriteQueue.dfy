/** Group commit (db_impl.cc Write and BuildBatchGroup): writers queue up, the one in front
    logs and applies a whole prefix of the queue, and readers only ever see complete batches.
  */
module WriteQueue {
  import opened Keys

  const SMALL_WRITE: nat := 128 * 1024
  const MAX_GROUP_SIZE: nat := 1024 * 1024

  /** A queued write.  An absent batch only asks for the memtable to be switched. */
  datatype Writer = Writer(id: nat, batch: Option<seq<Op>>, bytes: nat, sync: bool)

  function OpsOf(w: Writer): seq<Op> {
    if w.batch.Some? then w.batch.value else []
  }

  /** The updates of several writers, in order. */
  function AllOps(ws: seq<Writer>): seq<Op> {
    if ws == [] then [] else AllOps(ws[..|ws| - 1]) + OpsOf(ws[|ws| - 1])
  }

  // ---------- which writers join the group ----------

  function MaxSize(firstBytes: nat): nat {
    if firstBytes <= SMALL_WRITE then firstBytes + SMALL_WRITE else MAX_GROUP_SIZE
  }

  /** Writers [0, i) are in; decides how far the group extends. */
  function GroupEnd(queue: seq<Writer>, i: nat, size: nat): (n: nat)
    requires 1 <= i <= |queue|
    ensures i <= n <= |queue|
    ensures forall j :: i <= j < n ==> queue[j].sync ==> queue[0].sync
    decreases |queue| - i
  {
    if i == |queue| || (queue[i].sync && !queue[0].sync) then i
    else if queue[i].batch.None? then GroupEnd(queue, i + 1, size)
    else if size + queue[i].bytes > MaxSize(queue[0].bytes) then i
    else GroupEnd(queue, i + 1, size + queue[i].bytes)
  }

  /** The bytes of the batches among the first `n` writers. */
  function GroupBytes(queue: seq<Writer>, n: nat): nat
    requires n <= |queue|
  {
    if n == 0 then 0 else GroupBytes(queue, n - 1) + if queue[n - 1].batch.Some? then queue[n - 1].bytes else 0
  }

  /** The first `n` writers may share a record: no sync write behind a leader that does not sync, and
      no batch that takes the group over its size limit; an absent batch adds nothing. */
  ghost predicate MayShare(queue: seq<Writer>, n: nat) {
    1 <= n <= |queue| &&
    forall j :: 1 <= j < n ==>
      (queue[j].sync ==> queue[0].sync) &&
      (queue[j].batch.Some? ==> GroupBytes(queue, j + 1) <= MaxSize(queue[0].bytes))
  }

  lemma FewerShare(queue: seq<Writer>, m: nat, n: nat)
    requires MayShare(queue, m) && 1 <= n <= m
    ensures MayShare(queue, n)
  {
  }

  lemma {:induction false} GroupEndFrom(queue: seq<Writer>, i: nat)
    requires 1 <= i <= |queue| && MayShare(queue, i)
    ensures var n := GroupEnd(queue, i, GroupBytes(queue, i));
      MayShare(queue, n) && forall m: nat :: MayShare(queue, m) ==> m <= n
    decreases |queue| - i
  {
    if GroupEnd(queue, i, GroupBytes(queue, i)) > i {
      GroupEndFrom(queue, i + 1);
    } else {
      forall m: nat | MayShare(queue, m) ensures m <= i {
        if i < m { FewerShare(queue, m, i + 1); }
      }
    }
  }

  /** The group is the longest prefix of the queue that may share a record. */
  lemma GroupIsLongest(queue: seq<Writer>)
    requires queue != [] && queue[0].batch.Some?
    ensures var n := GroupEnd(queue, 1, queue[0].bytes);
      MayShare(queue, n) && forall m: nat :: MayShare(queue, m) ==> m <= n
  {
    GroupEndFrom(queue, 1);
  }

  lemma AllOpsSnoc(ws: seq<Writer>, w: Writer)
    ensures AllOps(ws + [w]) == AllOps(ws) + OpsOf(w)
  {
    assert (ws + [w])[..|ws|] == ws;
  }

  lemma AllOpsNext(queue: seq<Writer>, n: nat)
    requires n < |queue|
    ensures AllOps(queue[..n + 1]) == AllOps(queue[..n]) + OpsOf(queue[n])
    ensures n == 0 ==> AllOps(queue[..n]) == []
  {
    assert queue[..n + 1] == queue[..n] + [queue[n]];
    AllOpsSnoc(queue[..n], queue[n]);
  }

  /** The batches of the writers one after the other: writer `w`'s starts at `starts[w]`; an absent batch
      takes no room. */
  ghost predicate Listed(updates: seq<Op>, ws: seq<Writer>, starts: seq<nat>) {
    |starts| == |ws| + 1 && starts[0] == 0 && starts[|ws|] == |updates| &&
    forall w :: 0 <= w < |ws| ==> BatchAt(updates, starts[w], starts[w + 1], ws[w])
  }

  ghost predicate BatchAt(updates: seq<Op>, from: nat, to: nat, w: Writer) {
    if w.batch.None? then to == from
    else to == from + |w.batch.value| <= |updates| && updates[from..to] == w.batch.value
  }

  lemma {:induction false} AllOpsListed(ws: seq<Writer>) returns (starts: seq<nat>)
    ensures Listed(AllOps(ws), ws, starts)
    decreases |ws|
  {
    if ws == [] {
      starts := [0];
    } else {
      var init, last := ws[..|ws| - 1], ws[|ws| - 1];
      starts := AllOpsListed(init);
      ListedSnoc(AllOps(init), init, starts, last);
      assert ws == init + [last];
      starts := starts + [starts[|init|] + |OpsOf(last)|];
    }
  }

  lemma ListedSnoc(updates: seq<Op>, ws: seq<Writer>, starts: seq<nat>, last: Writer)
    requires Listed(updates, ws, starts)
    ensures Listed(updates + OpsOf(last), ws + [last], starts + [starts[|ws|] + |OpsOf(last)|])
  {
    var all, updates', starts' := ws + [last], updates + OpsOf(last), starts + [starts[|ws|] + |OpsOf(last)|];
    forall w | 0 <= w < |all| ensures BatchAt(updates', starts'[w], starts'[w + 1], all[w]) {
      if w < |ws| {
        assert BatchAt(updates, starts[w], starts[w + 1], ws[w]);
        assert ws[w].batch.Some? ==> updates'[starts[w]..starts[w + 1]] == updates[starts[w]..starts[w + 1]];
      }
    }
  }

  method BuildBatchGroup(queue: seq<Writer>) returns (n: nat, updates: seq<Op>)
    requires queue != [] && queue[0].batch.Some?
    ensures n == GroupEnd(queue, 1, queue[0].bytes) && 1 <= n <= |queue|
    ensures MayShare(queue, n) && forall m: nat :: MayShare(queue, m) ==> m <= n
    ensures updates == AllOps(queue[..n]) && exists starts :: Listed(updates, queue[..n], starts)
    ensures forall j :: 0 <= j < n ==> queue[j].sync ==> queue[0].sync
  {
    hide MayShare, GroupBytes, AllOps, Listed;
    GroupIsLongest(queue);
    AllOpsNext(queue, 0);
    var first := queue[0];
    updates := first.batch.value;
    var size: nat := first.bytes;
    var maxSize := MAX_GROUP_SIZE;
    if size <= SMALL_WRITE {
      maxSize := size + SMALL_WRITE;
    }
    n := 1;
    while n < |queue|
      invariant 1 <= n <= |queue| && updates == AllOps(queue[..n])
      invariant GroupEnd(queue, 1, first.bytes) == GroupEnd(queue, n, size)
    {
      var w := queue[n];
      if w.sync && !first.sync {
        break;
      }
      AllOpsNext(queue, n);
      if w.batch.Some? {
        size := size + w.bytes;
        if size > maxSize {
          break;
        }
        updates := updates + w.batch.value;
      }
      n := n + 1;
    }
    ghost var starts := AllOpsListed(queue[..n]);
  }

  // ---------- the protocol ----------

  datatype Outcome = Committed | Failed | NothingToDo

  /** One log record: the group it carries and the sequence number of its first update. */
  datatype Record = Record(members: seq<Writer>, first: nat, synced: bool)

  /** What the writer in front of the queue is doing. */
  datatype Phase =
    | Waiting
    | Grouped(n: nat)
    | Logged(n: nat, inserted: nat)

  datatype State = State(
    arrived: seq<Writer>,
    done: seq<Outcome>,
    phase: Phase,
    log: seq<Record>,
    mem: seq<Op>,
    lastSequence: nat)

  /** Writers leave in arrival order, so the queue is what has arrived and is not done. */
  function Queue(s: State): seq<Writer> {
    if |s.done| <= |s.arrived| then s.arrived[|s.done|..] else []
  }

  datatype Step =
    | Enqueue(batch: Option<seq<Op>>, bytes: nat, sync: bool)
    | FailFront
    | FinishEmptyFront
    | FormGroup
    | AppendToLog
    | InsertOne
    | FinishGroup

  predicate Enabled(s: State, step: Step) {
    var queue := Queue(s);
    match step
    case Enqueue(_, _, _) => true
    case FailFront => s.phase.Waiting? && queue != []
    case FinishEmptyFront => s.phase.Waiting? && queue != [] && queue[0].batch.None?
    case FormGroup => s.phase.Waiting? && queue != [] && queue[0].batch.Some?
    case AppendToLog => s.phase.Grouped? && s.phase.n <= |queue| && queue != []
    case InsertOne => s.phase.Logged? && s.phase.n <= |queue| && s.phase.inserted < |AllOps(queue[..s.phase.n])|
    case FinishGroup => s.phase.Logged? && s.phase.n <= |queue| && s.phase.inserted == |AllOps(queue[..s.phase.n])|
  }

  /** MakeRoomForWrite may fail before anything is logged (FailFront); otherwise the front writer
      forms a group, appends one record, inserts its updates one at a time without the lock, and
      only then moves the last sequence number and releases the group. */
  function After(s: State, step: Step): State
    requires Enabled(s, step)
  {
    var queue := Queue(s);
    match step
    case Enqueue(batch, bytes, sync) => s.(arrived := s.arrived + [Writer(|s.arrived|, batch, bytes, sync)])
    case FailFront => s.(done := s.done + [Failed])
    case FinishEmptyFront => s.(done := s.done + [NothingToDo])
    case FormGroup => s.(phase := Grouped(GroupEnd(queue, 1, queue[0].bytes)))
    case AppendToLog =>
      s.(log := s.log + [Record(queue[..s.phase.n], s.lastSequence + 1, queue[0].sync)],
         phase := Logged(s.phase.n, 0))
    case InsertOne =>
      s.(mem := s.mem + [AllOps(queue[..s.phase.n])[s.phase.inserted]],
         phase := Logged(s.phase.n, s.phase.inserted + 1))
    case FinishGroup =>
      s.(lastSequence := s.lastSequence + |AllOps(queue[..s.phase.n])|,
         done := s.done + seq(s.phase.n, _ => Committed),
         phase := Waiting)
  }

  // ---------- invariant ----------

  /** The writers committed by the log so far, in log order. */
  function LoggedWriters(log: seq<Record>): seq<Writer> {
    if log == [] then [] else LoggedWriters(log[..|log| - 1]) + log[|log| - 1].members
  }

  /** The finished writers whose group was committed, in queue order. */
  function CommittedOf(arrived: seq<Writer>, done: seq<Outcome>): seq<Writer>
    requires |done| <= |arrived|
  {
    if done == [] then []
    else
      var n := |done| - 1;
      CommittedOf(arrived, done[..n]) + if done[n].Committed? then [arrived[n]] else []
  }

  ghost predicate RecordsOk(log: seq<Record>) {
    forall i :: 0 <= i < |log| ==>
      log[i].first == |AllOps(LoggedWriters(log[..i]))| + 1 &&
      (forall w :: w in log[i].members && w.sync ==> log[i].synced)
  }

  ghost predicate Inv(s: State) {
    |s.done| <= |s.arrived| &&
    (forall i :: 0 <= i < |s.arrived| ==> s.arrived[i].id == i) &&
    RecordsOk(s.log) &&
    var queue, logged := Queue(s), LoggedWriters(s.log);
    match s.phase
    case Waiting =>
      logged == CommittedOf(s.arrived, s.done) && s.lastSequence == |AllOps(logged)| && s.mem == AllOps(logged)
    case Grouped(n) =>
      1 <= n <= |queue| && queue[0].batch.Some? && (forall j :: 0 <= j < n ==> queue[j].sync ==> queue[0].sync) &&
      logged == CommittedOf(s.arrived, s.done) && s.lastSequence == |AllOps(logged)| && s.mem == AllOps(logged)
    case Logged(n, inserted) =>
      1 <= n <= |queue| && inserted <= |AllOps(queue[..n])| && s.log != [] &&
      var before := LoggedWriters(s.log[..|s.log| - 1]);
      s.log[|s.log| - 1].members == queue[..n] && before == CommittedOf(s.arrived, s.done) &&
      s.lastSequence == |AllOps(before)| && s.mem == AllOps(before) + AllOps(queue[..n])[..inserted]
  }

  lemma {:induction false} AllOpsConcat(a: seq<Writer>, b: seq<Writer>)
    ensures AllOps(a + b) == AllOps(a) + AllOps(b)
    decreases |b|
  {
    if b == [] {
      assert a + b == a;
    } else {
      var n := |b| - 1;
      AllOpsConcat(a, b[..n]);
      assert (a + b)[..|a + b| - 1] == a + b[..n];
    }
  }

  lemma {:induction false} CommittedGrows(arrived: seq<Writer>, done: seq<Outcome>, more: seq<Writer>)
    requires |done| <= |arrived|
    ensures CommittedOf(arrived + more, done) == CommittedOf(arrived, done)
  {
    if done == [] {
    } else {
      CommittedGrows(arrived, done[..|done| - 1], more);
    }
  }

  lemma CommittedSkips(arrived: seq<Writer>, done: seq<Outcome>, o: Outcome)
    requires |done| < |arrived| && !o.Committed?
    ensures CommittedOf(arrived, done + [o]) == CommittedOf(arrived, done)
  {
    assert (done + [o])[..|done|] == done;
  }

  lemma {:induction false} CommittedTakes(arrived: seq<Writer>, done: seq<Outcome>, n: nat)
    requires |done| + n <= |arrived|
    ensures CommittedOf(arrived, done + seq(n, _ => Committed))
      == CommittedOf(arrived, done) + arrived[|done|..|done| + n]
    decreases n
  {
    var all := done + seq(n, _ => Committed);
    if n == 0 {
      assert all == done;
    } else {
      CommittedTakes(arrived, done, n - 1);
      assert all[..|all| - 1] == done + seq(n - 1, _ => Committed);
      assert arrived[|done|..|done| + n] == arrived[|done|..|done| + n - 1] + [arrived[|done| + n - 1]];
    }
  }

  lemma RecordsSnoc(log: seq<Record>, r: Record)
    requires RecordsOk(log) && r.first == |AllOps(LoggedWriters(log))| + 1
    requires forall w :: w in r.members && w.sync ==> r.synced
    ensures RecordsOk(log + [r]) && LoggedWriters(log + [r]) == LoggedWriters(log) + r.members
  {
    var log' := log + [r];
    assert log'[..|log|] == log;
    forall i | 0 <= i < |log'| ensures log'[i].first == |AllOps(LoggedWriters(log'[..i]))| + 1 {
      if i < |log| { assert log'[..i] == log[..i]; }
    }
  }

  lemma EnqueueKeeps(s: State, step: Step)
    requires Inv(s) && step.Enqueue?
    ensures Inv(After(s, step))
  {
    var s', queue := After(s, step), Queue(s);
    var w := Writer(|s.arrived|, step.batch, step.bytes, step.sync);
    CommittedGrows(s.arrived, s.done, [w]);
    assert Queue(s') == queue + [w];
    if !s.phase.Waiting? { assert Queue(s')[..s.phase.n] == queue[..s.phase.n]; }
  }

  lemma AppendKeeps(s: State)
    requires Inv(s) && Enabled(s, AppendToLog)
    ensures Inv(After(s, AppendToLog))
  {
    hide AllOps, LoggedWriters, CommittedOf, RecordsOk;
    var s', queue := After(s, AppendToLog), Queue(s);
    RecordsSnoc(s.log, Record(queue[..s.phase.n], s.lastSequence + 1, queue[0].sync));
    assert s'.log[..|s'.log| - 1] == s.log;
  }

  lemma PrefixGrows<T>(before: seq<T>, all: seq<T>, j: nat)
    requires j < |all|
    ensures before + all[..j] + [all[j]] == before + all[..j + 1]
  {
  }

  lemma InsertKeeps(s: State)
    requires Inv(s) && Enabled(s, InsertOne)
    ensures Inv(After(s, InsertOne))
  {
    PrefixGrows(AllOps(LoggedWriters(s.log[..|s.log| - 1])), AllOps(Queue(s)[..s.phase.n]), s.phase.inserted);
    assert Queue(After(s, InsertOne)) == Queue(s);
  }

  /** The logged group is what the finished group adds to the committed writers. */
  lemma FinishedGroup(s: State)
    requires Inv(s) && Enabled(s, FinishGroup)
    ensures LoggedWriters(s.log) == CommittedOf(s.arrived, s.done + seq(s.phase.n, _ => Committed))
    ensures |AllOps(LoggedWriters(s.log))| == s.lastSequence + |AllOps(Queue(s)[..s.phase.n])|
    ensures s.mem == AllOps(LoggedWriters(s.log))
  {
    hide AllOps, RecordsOk;
    var n, queue := s.phase.n, Queue(s);
    CommittedTakes(s.arrived, s.done, n);
    assert queue[..n] == s.arrived[|s.done|..|s.done| + n];
    AllOpsConcat(LoggedWriters(s.log[..|s.log| - 1]), queue[..n]);
    var ops := AllOps(queue[..n]);
    assert ops[..s.phase.inserted] == ops;
  }

  lemma FinishKeeps(s: State)
    requires Inv(s) && Enabled(s, FinishGroup)
    ensures Inv(After(s, FinishGroup))
  {
    FinishedGroup(s);
  }

  lemma StepKeepsInvariant(s: State, step: Step)
    requires Inv(s) && Enabled(s, step)
    ensures Inv(After(s, step))
  {
    match step
    case Enqueue(_, _, _) => EnqueueKeeps(s, step);
    case FailFront => CommittedSkips(s.arrived, s.done, Failed);
    case FinishEmptyFront => CommittedSkips(s.arrived, s.done, NothingToDo);
    case FormGroup =>
    case AppendToLog => AppendKeeps(s);
    case InsertOne => InsertKeeps(s);
    case FinishGroup => FinishKeeps(s);
  }

  // ---------- runs ----------

  ghost predicate IsRun(states: seq<State>, steps: seq<Step>) {
    |states| == |steps| + 1 && states[0] == State([], [], Waiting, [], [], 0) &&
    forall i :: 0 <= i < |steps| ==> Enabled(states[i], steps[i]) && states[i + 1] == After(states[i], steps[i])
  }

  lemma {:induction false} RunInvariant(states: seq<State>, steps: seq<Step>, i: nat)
    requires IsRun(states, steps) && i < |states|
    ensures Inv(states[i])
  {
    if i == 0 {
    } else {
      RunInvariant(states, steps, i - 1);
      StepKeepsInvariant(states[i - 1], steps[i - 1]);
    }
  }

  /** Exactly once, in queue order: whenever no group is in flight, the log carries precisely the
      committed writers in the order they queued, and the memtable their updates in that order. */
  lemma LoggedOnceInQueueOrder(states: seq<State>, steps: seq<Step>, i: nat)
    requires IsRun(states, steps) && i < |states| && !states[i].phase.Logged?
    ensures |states[i].done| <= |states[i].arrived|
    ensures LoggedWriters(states[i].log) == CommittedOf(states[i].arrived, states[i].done)
    ensures states[i].mem == AllOps(CommittedOf(states[i].arrived, states[i].done))
    ensures exists starts :: Listed(states[i].mem, CommittedOf(states[i].arrived, states[i].done), starts)
  {
    RunInvariant(states, steps, i);
    var starts := AllOpsListed(CommittedOf(states[i].arrived, states[i].done));
  }

  /** Sequence numbers are consecutive and never reused, and a sync write is always in a synced record. */
  lemma RecordsAreConsecutive(states: seq<State>, steps: seq<Step>, i: nat, r: nat)
    requires IsRun(states, steps) && i < |states| && r < |states[i].log|
    ensures r == 0 ==> states[i].log[r].first == 1
    ensures r > 0 ==>
      states[i].log[r].first == states[i].log[r - 1].first + |AllOps(states[i].log[r - 1].members)|
    ensures forall w :: w in states[i].log[r].members && w.sync ==> states[i].log[r].synced
  {
    RunInvariant(states, steps, i);
    var log := states[i].log;
    if r > 0 {
      assert log[..r][..r - 1] == log[..r - 1];
      AllOpsConcat(LoggedWriters(log[..r - 1]), log[r - 1].members);
    }
  }

  /** The sequence number of a member's first update. */
  function FirstOf(r: Record, m: nat): nat
    requires m < |r.members|
  {
    r.first + |AllOps(r.members[..m])|
  }

  lemma {:induction false} LoggedPrefix(log: seq<Record>, r: nat)
    requires r <= |log|
    ensures |AllOps(LoggedWriters(log[..r]))| <= |AllOps(LoggedWriters(log))|
    decreases |log| - r
  {
    if r == |log| {
      assert log[..r] == log;
    } else {
      LoggedPrefix(log, r + 1);
      assert log[..r + 1][..r] == log[..r];
      AllOpsConcat(LoggedWriters(log[..r]), log[r].members);
    }
  }

  /** A member's updates lie inside its record's range of sequence numbers. */
  lemma MemberInRecord(log: seq<Record>, r: nat, m: nat)
    requires RecordsOk(log) && r < |log| && m < |log[r].members|
    ensures |AllOps(LoggedWriters(log[..r]))| < FirstOf(log[r], m)
    ensures FirstOf(log[r], m) + |OpsOf(log[r].members[m])| - 1 <= |AllOps(LoggedWriters(log[..r + 1]))|
  {
    var members := log[r].members;
    assert members[..m + 1][..m] == members[..m];
    assert members == members[..m + 1] + members[m + 1..];
    AllOpsConcat(members[..m + 1], members[m + 1..]);
    AllOpsConcat(LoggedWriters(log[..r]), members);
    assert log[..r + 1][..r] == log[..r];
  }

  /** The last sequence number is always the end of some record. */
  lemma LastSequenceIsRecordEnd(s: State)
    requires Inv(s)
    ensures exists k :: 0 <= k <= |s.log| && s.lastSequence == |AllOps(LoggedWriters(s.log[..k]))|
    ensures s.lastSequence <= |s.mem|
  {
    assert s.log[..|s.log|] == s.log;
    if s.phase.Logged? {
      assert s.lastSequence == |AllOps(LoggedWriters(s.log[..|s.log| - 1]))|;
    } else {
      assert s.lastSequence == |AllOps(LoggedWriters(s.log[..|s.log|]))|;
    }
  }

  /** A reader at the last sequence number sees all of a batch or none of it, and everything it
      may see is already in the memtable. */
  lemma ReadersSeeWholeBatches(states: seq<State>, steps: seq<Step>, i: nat, r: nat, m: nat)
    requires IsRun(states, steps) && i < |states|
    requires r < |states[i].log| && m < |states[i].log[r].members|
    ensures var s := states[i]; var first := FirstOf(s.log[r], m); var n := |OpsOf(s.log[r].members[m])|;
      s.lastSequence < first || first + n - 1 <= s.lastSequence
    ensures states[i].lastSequence <= |states[i].mem|
  {
    RunInvariant(states, steps, i);
    WholeBatches(states[i], r, m);
  }

  lemma WholeBatches(s: State, r: nat, m: nat)
    requires Inv(s) && r < |s.log| && m < |s.log[r].members|
    ensures s.lastSequence < FirstOf(s.log[r], m) ||
      FirstOf(s.log[r], m) + |OpsOf(s.log[r].members[m])| - 1 <= s.lastSequence
    ensures s.lastSequence <= |s.mem|
  {
    LastSequenceIsRecordEnd(s);
    var k :| 0 <= k <= |s.log| && s.lastSequence == |AllOps(LoggedWriters(s.log[..k]))|;
    MemberInRecord(s.log, r, m);
    RecordEndsOrdered(s.log, k, r);
  }

  lemma RecordEndsOrdered(log: seq<Record>, k: nat, r: nat)
    requires k <= |log| && r < |log|
    ensures r < k ==> |AllOps(LoggedWriters(log[..r + 1]))| <= |AllOps(LoggedWriters(log[..k]))|
    ensures k <= r ==> |AllOps(LoggedWriters(log[..k]))| <= |AllOps(LoggedWriters(log[..r]))|
  {
    if r < k {
      assert log[..k][..r + 1] == log[..r + 1];
      LoggedPrefix(log[..k], r + 1);
    } else {
      assert log[..r][..k] == log[..k];
      LoggedPrefix(log[..r], k);
    }
  }
}
