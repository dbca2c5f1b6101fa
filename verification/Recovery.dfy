/** Durability (db_impl.cc MakeRoomForWrite, CompactMemTable, DeleteObsoleteFiles, Recover,
    RecoverLogFile, DB::Open): every batch that reached a log is covered exactly once, by a
    table the manifest lists or by a log that recovery replays, through crashes at any point.
    Appends are durable and file operations succeed.
  */
module Recovery {
  import opened Keys
  import opened Sequences

  /** A logged write batch; its updates take the sequence numbers from `first` on. */
  datatype Batch = Batch(first: nat, ops: seq<Op>)

  /** One update with its sequence number: what memtables and tables hold. */
  datatype Update = Update(sequence: nat, op: Op)

  datatype LogFile = LogFile(number: nat, batches: seq<Batch>)

  /** The durable record of which tables make up the database. */
  datatype Manifest = Manifest(files: seq<nat>, logNumber: nat, nextFile: nat, lastSequence: nat)

  /** Log files are listed by ascending number. */
  datatype Disk = Disk(logs: seq<LogFile>, tables: map<nat, seq<Update>>, manifest: Manifest)

  datatype Process =
    | Down
    | Recovering(nextFile: nat, built: seq<nat>, lastSequence: nat)
    | Opening(nextFile: nat, built: seq<nat>, lastSequence: nat, newLog: nat)
    | Up(nextFile: nat, currentLog: nat, mem: seq<Batch>, imm: Option<seq<Batch>>, pending: Option<nat>,
      lastSequence: nat)

  /** `history` is every batch ever logged. */
  datatype System = System(disk: Disk, process: Process, history: seq<Batch>)

  // ---------- what the disk covers ----------

  function BatchUpdates(b: Batch): seq<Update> {
    seq(|b.ops|, i requires 0 <= i < |b.ops| => Update(b.first + i, b.ops[i]))
  }

  function Updates(batches: seq<Batch>): seq<Update> {
    if batches == [] then []
    else Updates(batches[..|batches| - 1]) + BatchUpdates(batches[|batches| - 1])
  }

  function LiveBatches(logs: seq<LogFile>, from: nat): seq<Batch> {
    if logs == [] then []
    else
      var last := logs[|logs| - 1];
      LiveBatches(logs[..|logs| - 1], from) + if last.number >= from then last.batches else []
  }

  function Contents(tables: map<nat, seq<Update>>, n: nat): seq<Update> {
    if n in tables then tables[n] else []
  }

  function TableUpdates(files: seq<nat>, tables: map<nat, seq<Update>>): seq<Update> {
    if files == [] then []
    else TableUpdates(files[..|files| - 1], tables) + Contents(tables, files[|files| - 1])
  }

  function Live(d: Disk): seq<Batch> {
    LiveBatches(d.logs, d.manifest.logNumber)
  }

  /** What recovery would restore from this disk. */
  function Covered(d: Disk): seq<Update> {
    TableUpdates(d.manifest.files, d.tables) + Updates(Live(d))
  }

  /** The largest sequence number used by replayed batches, at least `floor`. */
  function MaxSequence(batches: seq<Batch>, floor: nat): nat {
    if batches == [] then floor
    else
      var b := batches[|batches| - 1];
      var rest := MaxSequence(batches[..|batches| - 1], floor);
      if b.first + |b.ops| > rest + 1 then b.first + |b.ops| - 1 else rest
  }

  /** The updates of the records one after the other: record `r` starts at `starts[r]`, and its i-th
      operation takes the i-th sequence number from the record's first. */
  ghost predicate Listed(flat: seq<Update>, records: seq<Batch>, starts: seq<nat>) {
    |starts| == |records| + 1 && starts[0] == 0 && starts[|records|] == |flat| &&
    (forall r :: 0 <= r < |records| ==> starts[r + 1] == starts[r] + |records[r].ops|) &&
    forall r, i :: 0 <= r < |records| && 0 <= i < |records[r].ops| ==> UpdateAt(flat, starts[r], records[r], i)
  }

  ghost predicate UpdateAt(flat: seq<Update>, start: nat, b: Batch, i: nat)
    requires i < |b.ops|
  {
    start + i < |flat| && flat[start + i] == Update(b.first + i, b.ops[i])
  }

  lemma {:induction false} UpdatesListed(records: seq<Batch>) returns (starts: seq<nat>)
    ensures Listed(Updates(records), records, starts)
    decreases |records|
  {
    if records == [] {
      starts := [0];
    } else {
      var init, last := records[..|records| - 1], records[|records| - 1];
      starts := UpdatesListed(init);
      ListedSnoc(Updates(init), init, starts, last);
      assert records == init + [last];
      starts := starts + [starts[|init|] + |last.ops|];
    }
  }

  lemma ListedSnoc(flat: seq<Update>, records: seq<Batch>, starts: seq<nat>, b: Batch)
    requires Listed(flat, records, starts)
    ensures Listed(flat + BatchUpdates(b), records + [b], starts + [starts[|records|] + |b.ops|])
  {
    var all, flat', starts' := records + [b], flat + BatchUpdates(b), starts + [starts[|records|] + |b.ops|];
    forall r, i | 0 <= r < |all| && 0 <= i < |all[r].ops| ensures UpdateAt(flat', starts'[r], all[r], i) {
      if r < |records| {
        assert UpdateAt(flat, starts[r], records[r], i);
      } else {
        assert flat'[|flat| + i] == BatchUpdates(b)[i];
      }
    }
  }

  /** The largest sequence number is at least the floor and every record's last number, and it is
      one of them. */
  lemma {:induction false} MaxIsLargest(records: seq<Batch>, floor: nat)
    ensures MaxSequence(records, floor) >= floor
    ensures forall r :: 0 <= r < |records| ==> MaxSequence(records, floor) + 1 >= records[r].first + |records[r].ops|
    ensures MaxSequence(records, floor) == floor ||
      exists r :: 0 <= r < |records| && MaxSequence(records, floor) + 1 == records[r].first + |records[r].ops|
    decreases |records|
  {
    if records == [] {
    } else {
      var n := |records| - 1;
      var init, max := records[..n], MaxSequence(records, floor);
      MaxIsLargest(init, floor);
      forall r | 0 <= r < |records| ensures max + 1 >= records[r].first + |records[r].ops| {
        assert r < n ==> records[r] == init[r];
      }
      if max != floor && max == MaxSequence(init, floor) {
        var r :| 0 <= r < n && max + 1 == init[r].first + |init[r].ops|;
        assert records[r] == init[r];
      }
    }
  }

  // ---------- replaying logs ----------

  /** New tables and their numbers, which ascend from `low` and stay below `next`. */
  ghost predicate TablesNumbered(parts: seq<seq<Update>>, built: seq<nat>, low: nat, next: nat) {
    |built| == |parts| && low <= next && (forall i :: 0 <= i < |built| ==> low <= built[i] < next) &&
    forall i, j :: 0 <= i < j < |built| ==> built[i] < built[j]
  }

  /** RecoverLogFile: records go into a memtable that is written out whenever it is full and at
      the end; an empty table uses up a number but is not kept. */
  method RecoverLogFile(records: seq<Batch>, maxSequence: nat, full: seq<Update> -> bool, nextFile: nat)
    returns (parts: seq<seq<Update>>, built: seq<nat>, next: nat, max: nat)
    ensures Flatten(parts) == Updates(records)
    ensures exists starts :: Listed(Flatten(parts), records, starts)
    ensures TablesNumbered(parts, built, nextFile, next)
    ensures max == MaxSequence(records, maxSequence) && max >= maxSequence
    ensures forall r :: 0 <= r < |records| ==> max + 1 >= records[r].first + |records[r].ops|
    ensures max == maxSequence || exists r :: 0 <= r < |records| && max + 1 == records[r].first + |records[r].ops|
  {
    hide Flatten, Updates, MaxSequence, TablesNumbered, BatchUpdates, Listed;
    ghost var starts := UpdatesListed(records);
    MaxIsLargest(records, maxSequence);
    parts, built, next, max := [], [], nextFile, maxSequence;
    NothingReplayed(records, nextFile, maxSequence);
    var open, mem: seq<Update> := false, [];
    for i := 0 to |records|
      invariant !open ==> mem == []
      invariant Flatten(parts) + mem == Updates(records[..i])
      invariant TablesNumbered(parts, built, nextFile, next)
      invariant max == MaxSequence(records[..i], maxSequence)
    {
      PrefixSnoc(records, i, maxSequence);
      var b := records[i];
      Associative(Flatten(parts), mem, BatchUpdates(b));
      open, mem := true, mem + BatchUpdates(b);
      if b.first + |b.ops| > max + 1 {
        max := b.first + |b.ops| - 1;
      }
      if full(mem) {
        parts, built, next := WriteTable(parts, built, nextFile, next, mem);
        open, mem := false, [];
      }
    }
    assert records[..|records|] == records;
    if open {
      parts, built, next := WriteTable(parts, built, nextFile, next, mem);
    }
  }

  lemma NothingReplayed(records: seq<Batch>, next: nat, floor: nat)
    ensures Flatten<Update>([]) == Updates(records[..0]) == [] && MaxSequence(records[..0], floor) == floor
    ensures TablesNumbered([], [], next, next)
  {
  }

  lemma PrefixSnoc(records: seq<Batch>, i: nat, floor: nat)
    requires i < |records|
    ensures Updates(records[..i + 1]) == Updates(records[..i]) + BatchUpdates(records[i])
    ensures var rest := MaxSequence(records[..i], floor); var end := records[i].first + |records[i].ops|;
      MaxSequence(records[..i + 1], floor) == if end > rest + 1 then end - 1 else rest
  {
    assert records[..i + 1][..i] == records[..i];
  }

  method WriteTable(parts: seq<seq<Update>>, built: seq<nat>, ghost low: nat, next: nat, mem: seq<Update>)
    returns (parts': seq<seq<Update>>, built': seq<nat>, next': nat)
    requires TablesNumbered(parts, built, low, next)
    ensures Flatten(parts') == Flatten(parts) + mem
    ensures TablesNumbered(parts', built', low, next')
  {
    parts', built', next' := parts, built, next + 1;
    if mem != [] {
      FlattenSnoc(parts, mem);
      parts', built' := parts + [mem], built + [next];
    }
  }

  lemma {:induction false} UpdatesConcat(a: seq<Batch>, b: seq<Batch>)
    ensures Updates(a + b) == Updates(a) + Updates(b)
    decreases |b|
  {
    if b == [] {
      assert a + b == a;
    } else {
      var init, last := b[..|b| - 1], BatchUpdates(b[|b| - 1]);
      UpdatesConcat(a, init);
      assert (a + b)[..|a + b| - 1] == a + init;
      Associative(Updates(a), Updates(init), last);
    }
  }

  lemma {:induction false} MaxSequenceConcat(a: seq<Batch>, b: seq<Batch>, floor: nat)
    ensures MaxSequence(a + b, floor) == MaxSequence(b, MaxSequence(a, floor))
    decreases |b|
  {
    if b == [] {
      assert a + b == a;
    } else {
      MaxSequenceConcat(a, b[..|b| - 1], floor);
      assert (a + b)[..|a + b| - 1] == a + b[..|b| - 1];
    }
  }

  ghost predicate Ascending(logs: seq<LogFile>) {
    forall i, j :: 0 <= i < j < |logs| ==> logs[i].number < logs[j].number
  }

  /** File names are unique, so two listed files with the same number are the same file. */
  ghost predicate UniqueNumbers(logs: seq<LogFile>) {
    forall f, g :: f in logs && g in logs && f.number == g.number ==> f == g
  }

  ghost predicate SameFiles(a: seq<LogFile>, b: seq<LogFile>) {
    forall f :: f in a <==> f in b
  }

  function SortLogs(logs: seq<LogFile>): (r: seq<LogFile>)
    requires UniqueNumbers(logs)
    ensures Ascending(r) && SameFiles(logs, r)
  {
    if logs == [] then [] else
    var tail := logs[1..];
    assert logs == [logs[0]] + tail;
    InsertLog(logs[0], SortLogs(tail))
  }

  function InsertLog(f: LogFile, logs: seq<LogFile>): (r: seq<LogFile>)
    requires Ascending(logs) && forall g :: g in logs && g.number == f.number ==> g == f
    ensures Ascending(r) && forall g :: g in r <==> g == f || g in logs
  {
    if logs == [] || f.number < logs[0].number then [f] + logs
    else if f.number == logs[0].number then logs
    else
      var rest := InsertLog(f, logs[1..]);
      assert logs == [logs[0]] + logs[1..];
      assert forall j :: 0 <= j < |rest| ==> rest[j] in rest;
      [logs[0]] + rest
  }

  /** Sorting any listing of the directory gives back the logs in the order they were generated. */
  lemma {:induction false} SortedListingIsUnique(a: seq<LogFile>, b: seq<LogFile>)
    requires Ascending(a) && Ascending(b) && SameFiles(a, b)
    ensures a == b
  {
    assert |b| > 0 ==> b[0] in b;
    if a != [] {
      assert a[0] in b;
      assert b[0] in a;
      HeadsAgree(a, b);
      TailsAgree(a, b);
      SortedListingIsUnique(a[1..], b[1..]);
      assert a == [a[0]] + a[1..] && b == [b[0]] + b[1..];
    }
  }

  lemma HeadsAgree(a: seq<LogFile>, b: seq<LogFile>)
    requires Ascending(a) && Ascending(b) && a != [] && b != [] && a[0] in b && b[0] in a
    ensures a[0] == b[0]
  {
    var i :| 0 <= i < |b| && b[i] == a[0];
    var j :| 0 <= j < |a| && a[j] == b[0];
  }

  lemma InTail(a: seq<LogFile>, b: seq<LogFile>, f: LogFile)
    requires Ascending(a) && a != [] && b != [] && a[0] == b[0] && f in a[1..] && f in b
    ensures f in b[1..]
  {
    var i :| 0 <= i < |a[1..]| && a[1..][i] == f;
    assert a[0].number < a[i + 1].number;
    assert b == [b[0]] + b[1..];
  }

  lemma TailsAgree(a: seq<LogFile>, b: seq<LogFile>)
    requires Ascending(a) && Ascending(b) && a != [] && b != [] && a[0] == b[0] && SameFiles(a, b)
    ensures Ascending(a[1..]) && Ascending(b[1..]) && SameFiles(a[1..], b[1..])
  {
    forall f ensures f in a[1..] <==> f in b[1..] {
      if f in a[1..] { InTail(a, b, f); }
      if f in b[1..] { InTail(b, a, f); }
    }
  }

  function SortedListing(ghost logs: seq<LogFile>, children: seq<LogFile>): (r: seq<LogFile>)
    requires Ascending(logs) && SameFiles(children, logs)
    ensures r == logs
  {
    var r := SortLogs(children);
    SortedListingIsUnique(logs, r);
    r
  }

  method MarkFileNumberUsed(next: nat, number: nat) returns (next': nat)
    ensures next' >= next && next' > number && (next' == next || next' == number + 1)
  {
    next' := if next <= number then number + 1 else next;
  }

  lemma NumberedConcat(parts: seq<seq<Update>>, built: seq<nat>, low: nat, mid: nat,
                       parts': seq<seq<Update>>, built': seq<nat>, next: nat)
    requires TablesNumbered(parts, built, low, mid) && TablesNumbered(parts', built', mid, next)
    ensures TablesNumbered(parts + parts', built + built', low, next)
  {
  }

  lemma NextLog(logs: seq<LogFile>, i: nat, from: nat)
    requires i < |logs|
    ensures LiveBatches(logs[..i + 1], from) ==
      LiveBatches(logs[..i], from) + if logs[i].number >= from then logs[i].batches else []
    ensures logs[i].number < from ==> LiveBatches(logs[..i + 1], from) == LiveBatches(logs[..i], from)
  {
    assert logs[..i + 1] == logs[..i] + [logs[i]];
    LiveSnoc(logs[..i], logs[i], from);
  }

  /** One more log's tables after those of the logs before it. */
  lemma ReplayedLog(parts: seq<seq<Update>>, more: seq<seq<Update>>, before: seq<Batch>, batches: seq<Batch>,
                    floor: nat)
    requires Flatten(parts) == Updates(before) && Flatten(more) == Updates(batches)
    ensures Flatten(parts + more) == Updates(before + batches)
    ensures MaxSequence(before + batches, floor) == MaxSequence(batches, MaxSequence(before, floor))
  {
    hide Flatten, Updates, MaxSequence;
    FlattenConcat(parts, more);
    UpdatesConcat(before, batches);
    MaxSequenceConcat(before, batches, floor);
  }

  /** Recover: replay every log at or above the manifest's log number in ascending order, whatever
      order the directory lists them in. */
  method ReplayLogs(d: Disk, children: seq<LogFile>, full: seq<Update> -> bool)
    returns (parts: seq<seq<Update>>, built: seq<nat>, next: nat, lastSequence: nat)
    requires Ascending(d.logs) && SameFiles(children, d.logs)
    ensures Flatten(parts) == Updates(Live(d))
    ensures TablesNumbered(parts, built, d.manifest.nextFile + 1, next)
    ensures forall f :: f in d.logs && f.number >= d.manifest.logNumber ==> f.number < next
    ensures lastSequence == MaxSequence(Live(d), d.manifest.lastSequence)
  {
    var logs := SortedListing(d.logs, children);
    parts, built, next, lastSequence := [], [], d.manifest.nextFile + 1, d.manifest.lastSequence;
    var from := d.manifest.logNumber;
    assert LiveBatches(logs[..0], from) == [];
    assert Flatten(parts) == Updates([]) == [] && MaxSequence([], lastSequence) == lastSequence;
    hide Flatten, Updates, MaxSequence, LiveBatches, TablesNumbered;
    for i := 0 to |logs|
      invariant Flatten(parts) == Updates(LiveBatches(logs[..i], from))
      invariant TablesNumbered(parts, built, d.manifest.nextFile + 1, next)
      invariant forall j :: 0 <= j < i && logs[j].number >= from ==> logs[j].number < next
      invariant lastSequence == MaxSequence(LiveBatches(logs[..i], from), d.manifest.lastSequence)
    {
      NextLog(logs, i, from);
      if logs[i].number >= from {
        var more, numbers, after, max := RecoverLogFile(logs[i].batches, lastSequence, full, next);
        ReplayedLog(parts, more, LiveBatches(logs[..i], from), logs[i].batches, d.manifest.lastSequence);
        NumberedConcat(parts, built, d.manifest.nextFile + 1, next, more, numbers, after);
        parts, built, lastSequence := parts + more, built + numbers, max;
        next := MarkFileNumberUsed(after, logs[i].number);
      }
    }
    assert logs[..|logs|] == logs;
  }

  // ---------- steps ----------

  datatype Step =
    | Write(ops: seq<Op>)
    | SwitchMem
    | BuildTable
    | CommitFlush
    | DeleteObsolete
    | Crash
    | Replay(parts: seq<seq<Update>>, built: seq<nat>, next: nat)
    | CreateLog
    | CommitOpen

  /** Tables written under the given numbers. */
  function AddTables(tables: map<nat, seq<Update>>, built: seq<nat>, parts: seq<seq<Update>>): map<nat, seq<Update>>
    requires |built| == |parts|
  {
    if parts == [] then tables
    else
      var n := |parts| - 1;
      AddTables(tables, built[..n], parts[..n])[built[n] := parts[n]]
  }

  ghost predicate Enabled(sys: System, step: Step) {
    var d, p := sys.disk, sys.process;
    match step
    case Write(_) => p.Up? && d.logs != []
    case SwitchMem => p.Up? && p.imm.None?
    case BuildTable => p.Up? && p.imm.Some? && p.pending.None?
    case CommitFlush => p.Up? && p.imm.Some? && p.pending.Some?
    case DeleteObsolete => p.Up?
    case Crash => !p.Down?
    case Replay(parts, built, next) =>
      // exactly what ReplayLogs delivers
      p.Down? && Flatten(parts) == Updates(Live(d)) && TablesNumbered(parts, built, d.manifest.nextFile + 1, next) &&
      forall f :: f in d.logs && f.number >= d.manifest.logNumber ==> f.number < next
    case CreateLog => p.Recovering?
    case CommitOpen => p.Opening?
  }

  function KeepLogs(logs: seq<LogFile>, from: nat): seq<LogFile> {
    if logs == [] then []
    else
      var last := logs[|logs| - 1];
      KeepLogs(logs[..|logs| - 1], from) + if last.number >= from then [last] else []
  }

  function AppendToLast(logs: seq<LogFile>, b: Batch): seq<LogFile>
    requires logs != []
  {
    var last := logs[|logs| - 1];
    logs[..|logs| - 1] + [last.(batches := last.batches + [b])]
  }

  ghost function After(sys: System, step: Step): System
    requires Enabled(sys, step)
  {
    var d, m, p := sys.disk, sys.disk.manifest, sys.process;
    match step
    case Write(ops) =>
      var b := Batch(p.lastSequence + 1, ops);
      System(d.(logs := AppendToLast(d.logs, b)),
             p.(mem := p.mem + [b], lastSequence := p.lastSequence + |ops|), sys.history + [b])
    case SwitchMem =>
      System(d.(logs := d.logs + [LogFile(p.nextFile, [])]),
             p.(imm := Some(p.mem), mem := [], currentLog := p.nextFile, nextFile := p.nextFile + 1), sys.history)
    case BuildTable =>
      System(d.(tables := d.tables[p.nextFile := Updates(p.imm.value)]),
             p.(pending := Some(p.nextFile), nextFile := p.nextFile + 1), sys.history)
    case CommitFlush =>
      // an empty table is not listed
      System(d.(manifest := Manifest(m.files + (if Updates(p.imm.value) == [] then [] else [p.pending.value]),
                                     p.currentLog, p.nextFile, p.lastSequence)),
             p.(imm := None, pending := None), sys.history)
    case DeleteObsolete =>
      System(d.(logs := KeepLogs(d.logs, m.logNumber),
                tables := map n | n in d.tables && (n in m.files || p.pending == Some(n)) :: d.tables[n]),
             p, sys.history)
    case Crash => System(d, Down, sys.history)
    case Replay(parts, built, next) =>
      System(d.(tables := AddTables(d.tables, built, parts)),
             Recovering(next, built, MaxSequence(Live(d), m.lastSequence)), sys.history)
    case CreateLog =>
      System(d.(logs := d.logs + [LogFile(p.nextFile, [])]),
             Opening(p.nextFile + 1, p.built, p.lastSequence, p.nextFile), sys.history)
    case CommitOpen =>
      System(d.(manifest := Manifest(m.files + p.built, p.newLog, p.nextFile, p.lastSequence)),
             Up(p.nextFile, p.newLog, [], None, None, p.lastSequence), sys.history)
  }

  // ---------- invariant ----------

  /** Sequence numbers are used once each, in order. */
  ghost predicate Numbered(u: seq<Update>) {
    forall i :: 0 <= i < |u| ==> u[i].sequence == i + 1
  }

  ghost predicate DiskOk(d: Disk, u: seq<Update>) {
    Ascending(d.logs) && (forall n :: n in d.manifest.files ==> n < d.manifest.nextFile) &&
    d.manifest.logNumber < d.manifest.nextFile &&
    Covered(d) == u && MaxSequence(Live(d), d.manifest.lastSequence) == |u|
  }

  /** Numbers from `next` on are unused by logs and by listed tables. */
  ghost predicate NumbersOk(d: Disk, next: nat) {
    d.manifest.nextFile <= next && forall f :: f in d.logs ==> f.number < next
  }

  ghost predicate BuiltOk(d: Disk, built: seq<nat>, next: nat) {
    TableUpdates(built, d.tables) == Updates(Live(d)) && forall n :: n in built ==> n < next
  }

  /** The last log backs the memtable, the one before it the memtable being flushed. */
  ghost predicate LogsHold(d: Disk, p: Process)
    requires p.Up?
  {
    var n := |d.logs|;
    n > 0 && d.logs[n - 1] == LogFile(p.currentLog, p.mem) &&
    match p.imm
    case None => d.manifest.logNumber == p.currentLog
    case Some(imm) => n > 1 && d.logs[n - 2] == LogFile(d.manifest.logNumber, imm)
  }

  ghost predicate PendingOk(d: Disk, p: Process)
    requires p.Up?
  {
    p.pending.Some? ==>
      p.imm.Some? && p.pending.value < p.nextFile && Contents(d.tables, p.pending.value) == Updates(p.imm.value)
  }

  ghost predicate ProcessOk(d: Disk, p: Process, total: nat) {
    match p
    case Down => true
    case Recovering(next, built, last) => NumbersOk(d, next) && BuiltOk(d, built, next) && last == total
    case Opening(next, built, last, newLog) =>
      NumbersOk(d, next) && BuiltOk(d, built, next) && last == total && d.logs != [] &&
      d.logs[|d.logs| - 1] == LogFile(newLog, [])
    case Up(next, _, _, _, _, last) => NumbersOk(d, next) && LogsHold(d, p) && PendingOk(d, p) && last == total
  }

  ghost predicate Inv(sys: System) {
    var u := Updates(sys.history);
    Numbered(u) && DiskOk(sys.disk, u) && ProcessOk(sys.disk, sys.process, |u|)
  }

  // ---------- lemmas about coverage ----------

  lemma LiveSnoc(logs: seq<LogFile>, f: LogFile, from: nat)
    ensures LiveBatches(logs + [f], from) == LiveBatches(logs, from) + if f.number >= from then f.batches else []
  {
    assert (logs + [f])[..|logs|] == logs;
  }

  lemma LiveNone(logs: seq<LogFile>, from: nat)
    requires forall f :: f in logs ==> f.number < from
    ensures LiveBatches(logs, from) == []
  {
  }

  /** While the process is up, the live logs hold exactly the memtables. */
  lemma LiveIsMemtables(d: Disk, p: Process)
    requires Ascending(d.logs) && p.Up? && LogsHold(d, p)
    ensures Live(d) == (if p.imm.Some? then p.imm.value else []) + p.mem
  {
    var n := |d.logs|;
    var init := d.logs[..n - 1];
    assert d.logs == init + [d.logs[n - 1]];
    LiveSnoc(init, d.logs[n - 1], d.manifest.logNumber);
    if p.imm.Some? {
      assert init == init[..n - 2] + [init[n - 2]];
      LiveSnoc(init[..n - 2], init[n - 2], d.manifest.logNumber);
      LiveNone(init[..n - 2], d.manifest.logNumber);
    } else {
      LiveNone(init, d.manifest.logNumber);
    }
  }

  lemma {:induction false} TableFrame(files: seq<nat>, t: map<nat, seq<Update>>, t': map<nat, seq<Update>>)
    requires forall n :: n in files ==> Contents(t, n) == Contents(t', n)
    ensures TableUpdates(files, t) == TableUpdates(files, t')
  {
    if files == [] {
    } else {
      TableFrame(files[..|files| - 1], t, t');
      assert files[|files| - 1] in files;
    }
  }

  lemma {:induction false} TableConcat(a: seq<nat>, b: seq<nat>, t: map<nat, seq<Update>>)
    ensures TableUpdates(a + b, t) == TableUpdates(a, t) + TableUpdates(b, t)
    decreases |b|
  {
    if b == [] {
      assert a + b == a;
    } else {
      var init, last := b[..|b| - 1], Contents(t, b[|b| - 1]);
      TableConcat(a, init, t);
      assert (a + b)[..|a + b| - 1] == a + init;
      Associative(TableUpdates(a, t), TableUpdates(init, t), last);
    }
  }

  lemma {:induction false} AddTablesOk(tables: map<nat, seq<Update>>, low: nat, next: nat, parts: seq<seq<Update>>,
                                       built: seq<nat>)
    requires TablesNumbered(parts, built, low, next)
    ensures forall n: nat :: n < low ==> Contents(AddTables(tables, built, parts), n) == Contents(tables, n)
    ensures TableUpdates(built, AddTables(tables, built, parts)) == Flatten(parts)
    decreases |parts|
  {
    if parts == [] {
    } else {
      var n := |parts| - 1;
      assert Flatten(parts) == Flatten(parts[..n]) + parts[n];
      hide Flatten;
      AddTablesOk(tables, low, next, parts[..n], built[..n]);
      TableFrame(built[..n], AddTables(tables, built[..n], parts[..n]), AddTables(tables, built, parts));
    }
  }

  lemma {:induction false} KeepLogsMembers(logs: seq<LogFile>, from: nat)
    ensures forall f :: f in KeepLogs(logs, from) <==> f in logs && f.number >= from
  {
    if logs == [] {
    } else {
      KeepLogsMembers(logs[..|logs| - 1], from);
      assert logs == logs[..|logs| - 1] + [logs[|logs| - 1]];
    }
  }

  lemma {:induction false} KeepLogsAscending(logs: seq<LogFile>, from: nat)
    requires Ascending(logs)
    ensures Ascending(KeepLogs(logs, from))
  {
    if logs == [] {
    } else {
      var init := logs[..|logs| - 1];
      KeepLogsAscending(init, from);
      KeepLogsMembers(init, from);
      var kept := KeepLogs(init, from);
      assert forall i :: 0 <= i < |kept| ==> kept[i] in kept;
    }
  }

  lemma {:induction false} KeepLogsLive(logs: seq<LogFile>, from: nat)
    ensures LiveBatches(KeepLogs(logs, from), from) == LiveBatches(logs, from)
  {
    if logs == [] {
    } else {
      var init, last := logs[..|logs| - 1], logs[|logs| - 1];
      KeepLogsLive(init, from);
      LiveSnoc(KeepLogs(init, from), last, from);
      assert KeepLogs(init, from) + [] == KeepLogs(init, from);
    }
  }

  /** Deleting obsolete logs keeps the logs behind both memtables. */
  lemma KeepLogsHold(d: Disk, d': Disk, p: Process)
    requires Ascending(d.logs) && p.Up? && LogsHold(d, p)
    requires d'.logs == KeepLogs(d.logs, d.manifest.logNumber) && d'.manifest == d.manifest
    ensures LogsHold(d', p)
  {
    var n := |d.logs|;
    if p.imm.Some? {
      assert d.logs[..n - 1][n - 2] == d.logs[n - 2];
    }
  }

  lemma {:induction false} MaxAtLeast(batches: seq<Batch>, floor: nat)
    ensures MaxSequence(batches, floor) >= floor
    ensures forall b :: b in batches ==> b.first + |b.ops| <= MaxSequence(batches, floor) + 1
  {
    if batches == [] {
    } else {
      MaxAtLeast(batches[..|batches| - 1], floor);
    }
  }

  lemma MaxBounded(batches: seq<Batch>, floor: nat)
    requires forall b :: b in batches ==> b.first + |b.ops| <= floor + 1
    ensures MaxSequence(batches, floor) == floor
  {
  }

  lemma NumberedSnoc(u: seq<Update>, b: Batch)
    requires Numbered(u) && b.first == |u| + 1
    ensures Numbered(u + BatchUpdates(b))
  {
  }

  // ---------- preservation ----------

  lemma AppendLive(d: Disk, d': Disk, b: Batch)
    requires Ascending(d.logs) && d.logs != [] && d.logs[|d.logs| - 1].number >= d.manifest.logNumber
    requires d'.logs == AppendToLast(d.logs, b) && d'.manifest == d.manifest
    ensures Live(d') == Live(d) + [b]
  {
    var n := |d.logs|;
    var last := d.logs[n - 1];
    var init := d.logs[..n - 1];
    assert d.logs == init + [last];
    LiveSnoc(init, last, d.manifest.logNumber);
    LiveSnoc(init, last.(batches := last.batches + [b]), d.manifest.logNumber);
  }

  lemma AppendNumbers(d: Disk, d': Disk, b: Batch, next: nat)
    requires Ascending(d.logs) && d.logs != [] && NumbersOk(d, next)
    requires d'.logs == AppendToLast(d.logs, b) && d'.manifest == d.manifest
    ensures Ascending(d'.logs) && NumbersOk(d', next)
  {
    forall f | f in d'.logs ensures f.number < next {
      var i :| 0 <= i < |d'.logs| && d'.logs[i] == f;
      assert f.number == d.logs[i].number && d.logs[i] in d.logs;
    }
  }

  lemma AppendDisk(d: Disk, d': Disk, b: Batch, u: seq<Update>)
    requires DiskOk(d, u) && d'.manifest == d.manifest && d'.tables == d.tables
    requires Ascending(d'.logs) && Live(d') == Live(d) + [b] && b.first == |u| + 1
    ensures DiskOk(d', u + BatchUpdates(b))
  {
    var live := Live(d);
    assert (live + [b])[..|live|] == live;
    calc {
      Covered(d');
      TableUpdates(d.manifest.files, d.tables) + (Updates(live) + BatchUpdates(b));
      Covered(d) + BatchUpdates(b);
    }
  }

  lemma AppendHolds(d: Disk, d': Disk, b: Batch, p: Process, p': Process)
    requires p.Up? && p'.Up? && LogsHold(d, p) && d'.logs == AppendToLast(d.logs, b) && d'.manifest == d.manifest
    requires p'.mem == p.mem + [b] && p'.imm == p.imm && p'.currentLog == p.currentLog
    ensures LogsHold(d', p')
  {
  }

  lemma LastIsLive(d: Disk, p: Process)
    requires Ascending(d.logs) && p.Up? && LogsHold(d, p)
    ensures d.logs[|d.logs| - 1].number >= d.manifest.logNumber
  {
  }

  lemma WriteKeeps(sys: System, ops: seq<Op>)
    requires Inv(sys) && Enabled(sys, Write(ops))
    ensures Inv(After(sys, Write(ops)))
  {
    var sys' := After(sys, Write(ops));
    var d, p, d', p', u := sys.disk, sys.process, sys'.disk, sys'.process, Updates(sys.history);
    var b := Batch(p.lastSequence + 1, ops);
    LastIsLive(d, p);
    AppendLive(d, d', b);
    AppendNumbers(d, d', b, p.nextFile);
    AppendDisk(d, d', b, u);
    AppendHolds(d, d', b, p, p');
    NumberedSnoc(u, b);
    assert (sys.history + [b])[..|sys.history|] == sys.history;
    assert Updates(sys'.history) == u + BatchUpdates(b);
  }

  /** Creating an empty log changes nothing that is covered. */
  lemma NewLogDisk(d: Disk, d': Disk, next: nat, u: seq<Update>)
    requires DiskOk(d, u) && NumbersOk(d, next)
    requires d' == d.(logs := d.logs + [LogFile(next, [])])
    ensures DiskOk(d', u) && NumbersOk(d', next + 1) && Live(d') == Live(d)
  {
    LiveSnoc(d.logs, LogFile(next, []), d.manifest.logNumber);
    assert Live(d') == Live(d);
    assert forall i :: 0 <= i < |d.logs| ==> d.logs[i] in d.logs;
    assert Covered(d') == Covered(d);
  }

  lemma SwitchKeeps(sys: System)
    requires Inv(sys) && Enabled(sys, SwitchMem)
    ensures Inv(After(sys, SwitchMem))
  {
    var d, p, sys' := sys.disk, sys.process, After(sys, SwitchMem);
    NewLogDisk(d, sys'.disk, p.nextFile, Updates(sys.history));
    SwitchHolds(d, sys'.disk, p, sys'.process);
  }

  lemma SwitchHolds(d: Disk, d': Disk, p: Process, p': Process)
    requires p.Up? && p.imm.None? && LogsHold(d, p) && PendingOk(d, p)
    requires d' == d.(logs := d.logs + [LogFile(p.nextFile, [])])
    requires p' == p.(imm := Some(p.mem), mem := [], currentLog := p.nextFile, nextFile := p.nextFile + 1)
    ensures LogsHold(d', p') && PendingOk(d', p')
  {
  }

  lemma NewTableDisk(d: Disk, d': Disk, u: seq<Update>)
    requires DiskOk(d, u) && d'.logs == d.logs && d'.manifest == d.manifest
    requires forall n :: n in d.manifest.files ==> Contents(d.tables, n) == Contents(d'.tables, n)
    ensures DiskOk(d', u)
  {
    TableFrame(d.manifest.files, d.tables, d'.tables);
  }

  lemma BuildKeeps(sys: System)
    requires Inv(sys) && Enabled(sys, BuildTable)
    ensures Inv(After(sys, BuildTable))
  {
    NewTableDisk(sys.disk, After(sys, BuildTable).disk, Updates(sys.history));
  }

  /** Moving batches from a live log to a listed table keeps what is covered. */
  lemma ListTable(files: seq<nat>, added: seq<nat>, tables: map<nat, seq<Update>>, imm: seq<Batch>, mem: seq<Batch>)
    requires TableUpdates(added, tables) == Updates(imm)
    ensures TableUpdates(files + added, tables) + Updates(mem) == TableUpdates(files, tables) + Updates(imm + mem)
  {
    TableConcat(files, added, tables);
    UpdatesConcat(imm, mem);
  }

  /** Once replayed batches have raised the counter, replaying a suffix of them changes nothing. */
  lemma MaxAbsorbs(imm: seq<Batch>, mem: seq<Batch>, floor: nat)
    ensures MaxSequence(mem, MaxSequence(imm + mem, floor)) == MaxSequence(imm + mem, floor)
  {
    MaxAtLeast(imm + mem, floor);
    assert forall b :: b in mem ==> b in imm + mem;
    MaxBounded(mem, MaxSequence(imm + mem, floor));
  }

  lemma CommitFlushDisk(d: Disk, d': Disk, p: Process, p': Process, u: seq<Update>)
    requires DiskOk(d, u) && p.Up? && p.imm.Some? && p.pending.Some? && LogsHold(d, p) && PendingOk(d, p)
    requires NumbersOk(d, p.nextFile) && p.lastSequence == |u|
    requires p' == p.(imm := None, pending := None) && d'.logs == d.logs && d'.tables == d.tables
    requires d'.manifest.logNumber == p.currentLog && d'.manifest.nextFile == p.nextFile
    requires d'.manifest.lastSequence == p.lastSequence
    requires d'.manifest.files == d.manifest.files + if Updates(p.imm.value) == [] then [] else [p.pending.value]
    ensures DiskOk(d', u)
  {
    hide Updates, MaxSequence;
    LiveIsMemtables(d, p);
    LiveIsMemtables(d', p');
    assert Live(d') == p.mem;
    var added := if Updates(p.imm.value) == [] then [] else [p.pending.value];
    assert TableUpdates(added, d.tables) == Updates(p.imm.value) by {
      assert [p.pending.value][..0] == [];
    }
    ListTable(d.manifest.files, added, d.tables, p.imm.value, p.mem);
    MaxAbsorbs(p.imm.value, p.mem, d.manifest.lastSequence);
    assert d.logs[|d.logs| - 1] in d.logs;
  }

  lemma CommitFlushKeeps(sys: System)
    requires Inv(sys) && Enabled(sys, CommitFlush)
    ensures Inv(After(sys, CommitFlush))
  {
    var sys' := After(sys, CommitFlush);
    CommitFlushDisk(sys.disk, sys'.disk, sys.process, sys'.process, Updates(sys.history));
  }

  lemma KeepLogsDisk(d: Disk, d': Disk, u: seq<Update>)
    requires DiskOk(d, u) && d'.tables == d.tables && d'.manifest == d.manifest
    requires d'.logs == KeepLogs(d.logs, d.manifest.logNumber)
    ensures DiskOk(d', u)
  {
    KeepLogsAscending(d.logs, d.manifest.logNumber);
    KeepLogsLive(d.logs, d.manifest.logNumber);
  }

  lemma DeleteKeeps(sys: System)
    requires Inv(sys) && Enabled(sys, DeleteObsolete)
    ensures Inv(After(sys, DeleteObsolete))
  {
    var d, p, d', u := sys.disk, sys.process, After(sys, DeleteObsolete).disk, Updates(sys.history);
    KeepLogsDisk(d, d.(logs := d'.logs), u);
    NewTableDisk(d.(logs := d'.logs), d', u);
    KeepLogsMembers(d.logs, d.manifest.logNumber);
    KeepLogsHold(d, d', p);
  }

  lemma ReplayKeeps(sys: System, parts: seq<seq<Update>>, built: seq<nat>, next: nat)
    requires Inv(sys) && Enabled(sys, Replay(parts, built, next))
    ensures Inv(After(sys, Replay(parts, built, next)))
  {
    var d, d' := sys.disk, After(sys, Replay(parts, built, next)).disk;
    AddTablesOk(d.tables, d.manifest.nextFile + 1, next, parts, built);
    NewTableDisk(d, d', Updates(sys.history));
  }

  lemma CreateLogKeeps(sys: System)
    requires Inv(sys) && Enabled(sys, CreateLog)
    ensures Inv(After(sys, CreateLog))
  {
    NewLogDisk(sys.disk, After(sys, CreateLog).disk, sys.process.nextFile, Updates(sys.history));
  }

  lemma CommitOpenDisk(d: Disk, d': Disk, p: Process, p': Process, u: seq<Update>)
    requires DiskOk(d, u) && p.Opening? && ProcessOk(d, p, |u|)
    requires d' == d.(manifest := Manifest(d.manifest.files + p.built, p.newLog, p.nextFile, p.lastSequence))
    requires p' == Up(p.nextFile, p.newLog, [], None, None, p.lastSequence)
    ensures DiskOk(d', u)
  {
    LiveIsMemtables(d', p');
    TableConcat(d.manifest.files, p.built, d.tables);
    assert d.logs[|d.logs| - 1] in d.logs;
  }

  lemma CommitOpenKeeps(sys: System)
    requires Inv(sys) && Enabled(sys, CommitOpen)
    ensures Inv(After(sys, CommitOpen))
  {
    var sys' := After(sys, CommitOpen);
    CommitOpenDisk(sys.disk, sys'.disk, sys.process, sys'.process, Updates(sys.history));
  }

  lemma StepKeepsInvariant(sys: System, step: Step)
    requires Inv(sys) && Enabled(sys, step)
    ensures Inv(After(sys, step))
  {
    match step
    case Write(ops) => WriteKeeps(sys, ops);
    case SwitchMem => SwitchKeeps(sys);
    case BuildTable => BuildKeeps(sys);
    case CommitFlush => CommitFlushKeeps(sys);
    case DeleteObsolete => DeleteKeeps(sys);
    case Crash =>
    case Replay(parts, built, next) => ReplayKeeps(sys, parts, built, next);
    case CreateLog => CreateLogKeeps(sys);
    case CommitOpen => CommitOpenKeeps(sys);
  }

  // ---------- runs ----------

  /** A new database: an empty manifest, no process. */
  function Initial(): System {
    System(Disk([], map[], Manifest([], 0, 2, 0)), Down, [])
  }

  ghost predicate IsRun(states: seq<System>, steps: seq<Step>) {
    |states| == |steps| + 1 && states[0] == Initial() &&
    forall i :: 0 <= i < |steps| ==> Enabled(states[i], steps[i]) && states[i + 1] == After(states[i], steps[i])
  }

  lemma {:induction false} RunInvariant(states: seq<System>, steps: seq<Step>, i: nat)
    requires IsRun(states, steps) && i < |states|
    ensures Inv(states[i])
  {
    if i == 0 {
    } else {
      RunInvariant(states, steps, i - 1);
      StepKeepsInvariant(states[i - 1], steps[i - 1]);
    }
  }

  /** The operations written by the first `n` steps, oldest first. */
  ghost function WrittenOps(steps: seq<Step>, n: nat): seq<Op>
    requires n <= |steps|
  {
    if n == 0 then [] else WrittenOps(steps, n - 1) + if steps[n - 1].Write? then steps[n - 1].ops else []
  }

  /** The updates are the operations in order, numbered from 1. */
  ghost predicate AreOps(u: seq<Update>, ops: seq<Op>) {
    |u| == |ops| && forall j :: 0 <= j < |u| ==> u[j] == Update(j + 1, ops[j])
  }

  lemma {:induction false} HistoryIsOps(states: seq<System>, steps: seq<Step>, i: nat)
    requires IsRun(states, steps) && i < |states|
    ensures AreOps(Updates(states[i].history), WrittenOps(steps, i))
  {
    hide Inv, Updates, AreOps;
    if i == 0 {
      NoUpdates();
    } else {
      HistoryIsOps(states, steps, i - 1);
      RunInvariant(states, steps, i - 1);
      RunInvariant(states, steps, i);
      var step, sys := steps[i - 1], states[i - 1];
      if step.Write? {
        WrittenMore(sys, step.ops, WrittenOps(steps, i - 1));
      } else {
        assert WrittenOps(steps, i - 1) + [] == WrittenOps(steps, i - 1);
      }
    }
  }

  lemma NoUpdates()
    ensures AreOps(Updates([]), [])
  {
  }

  lemma WrittenMore(sys: System, ops: seq<Op>, before: seq<Op>)
    requires Inv(sys) && Enabled(sys, Write(ops)) && AreOps(Updates(sys.history), before)
    ensures AreOps(Updates(After(sys, Write(ops)).history), before + ops)
  {
    hide Covered, Live, LogsHold, PendingOk, NumbersOk, DiskOk;
    var b := Batch(sys.process.lastSequence + 1, ops);
    assert (sys.history + [b])[..|sys.history|] == sys.history;
  }

  /** At every moment of every run, crashes included, the listed tables and the logs recovery would
      replay hold each logged update exactly once and in order (the i-th carries sequence number
      i + 1), and replaying them gives back the last sequence number. */
  lemma EveryBatchCoveredOnce(states: seq<System>, steps: seq<Step>, i: nat)
    requires IsRun(states, steps) && i < |states|
    ensures Covered(states[i].disk) == Updates(states[i].history)
    ensures Numbered(Updates(states[i].history))
    ensures MaxSequence(Live(states[i].disk), states[i].disk.manifest.lastSequence) == |Updates(states[i].history)|
    ensures AreOps(Covered(states[i].disk), WrittenOps(steps, i))
  {
    RunInvariant(states, steps, i);
    HistoryIsOps(states, steps, i);
  }

  lemma UpShows(d: Disk, p: Process, u: seq<Update>)
    requires DiskOk(d, u) && p.Up? && LogsHold(d, p)
    ensures TableUpdates(d.manifest.files, d.tables) + (if p.imm.Some? then Updates(p.imm.value) else []) +
      Updates(p.mem) == u
  {
    LiveIsMemtables(d, p);
    UpdatesConcat(if p.imm.Some? then p.imm.value else [], p.mem);
  }

  /** Whenever the database is open it shows every batch ever logged: reopening after any crash
      restores the same map. */
  lemma OpenShowsHistory(states: seq<System>, steps: seq<Step>, i: nat)
    requires IsRun(states, steps) && i < |states| && states[i].process.Up?
    ensures var sys := states[i]; var p := sys.process;
      TableUpdates(sys.disk.manifest.files, sys.disk.tables) + (if p.imm.Some? then Updates(p.imm.value) else []) +
        Updates(p.mem)
      == Updates(sys.history) && p.lastSequence == |Updates(sys.history)|
    ensures var sys := states[i]; var p := sys.process;
      AreOps(TableUpdates(sys.disk.manifest.files, sys.disk.tables) +
               (if p.imm.Some? then Updates(p.imm.value) else []) + Updates(p.mem), WrittenOps(steps, i)) &&
      p.lastSequence == |WrittenOps(steps, i)|
  {
    RunInvariant(states, steps, i);
    HistoryIsOps(states, steps, i);
    UpShows(states[i].disk, states[i].process, Updates(states[i].history));
  }

  /** A memtable that has been switched out can always be written to a table and listed; after that
      recovery would replay the current memtable alone. */
  lemma FlushCompletes(sys: System)
    requires Inv(sys) && sys.process.Up? && sys.process.imm.Some? && sys.process.pending.None?
    ensures Enabled(sys, BuildTable) && Enabled(After(sys, BuildTable), CommitFlush)
    ensures var sys' := After(After(sys, BuildTable), CommitFlush);
      sys'.process.Up? && sys'.process.imm.None? && sys'.process.pending.None? &&
      sys'.process.mem == sys.process.mem && Live(sys'.disk) == sys.process.mem
  {
    var built := After(sys, BuildTable);
    var sys' := After(built, CommitFlush);
    StepKeepsInvariant(sys, BuildTable);
    StepKeepsInvariant(built, CommitFlush);
    LiveIsMemtables(sys'.disk, sys'.process);
  }

  /** DB::Open on whatever a crash left, the logs listed in any order and memtables written early or
      not: the three steps of opening can be taken, and the open database shows all that was logged. */
  method Reopen(ghost sys: System, d: Disk, children: seq<LogFile>, full: seq<Update> -> bool)
    returns (parts: seq<seq<Update>>, built: seq<nat>, next: nat)
    requires Inv(sys) && sys.process.Down? && d == sys.disk && SameFiles(children, d.logs)
    ensures Enabled(sys, Replay(parts, built, next))
    ensures var read := After(sys, Replay(parts, built, next));
      Enabled(read, CreateLog) && Enabled(After(read, CreateLog), CommitOpen)
    ensures var sys' := After(After(After(sys, Replay(parts, built, next)), CreateLog), CommitOpen);
      sys'.process.Up? && sys'.process.lastSequence == |Updates(sys.history)| &&
      TableUpdates(sys'.disk.manifest.files, sys'.disk.tables) == Updates(sys.history)
  {
    hide TableUpdates, Live, LiveBatches, MaxSequence;
    ghost var lastSequence;
    parts, built, next, lastSequence := ReplayLogs(d, children, full);
    ghost var read := After(sys, Replay(parts, built, next));
    ghost var logged := After(read, CreateLog);
    ghost var sys' := After(logged, CommitOpen);
    StepKeepsInvariant(sys, Replay(parts, built, next));
    StepKeepsInvariant(read, CreateLog);
    StepKeepsInvariant(logged, CommitOpen);
    UpShows(sys'.disk, sys'.process, Updates(sys.history));
  }
}
