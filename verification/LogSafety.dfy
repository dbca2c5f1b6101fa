/** Reading arbitrary bytes as a log: whatever the file holds, every record returned is one good full
    physical record or an unbroken run of good ones, and no two records share one.
  */
module LogSafety {
  import opened Keys
  import opened Coding
  import opened Log

  // ---------- physical records in the file ----------

  /** Where a header can next start at or after file offset `q`. */
  function NextOffset(q: nat): nat {
    if BLOCK - q % BLOCK < HEADER then q + (BLOCK - q % BLOCK) else q
  }

  predicate IsData(e: Event) {
    0 < e.kind < EOF
  }

  /** The file holds the physical record `e` at `off`: within one block, with its length, type and,
      when verified, its checksum. */
  predicate GoodAt(c: Checksum, file: Bytes, off: nat, e: Event) {
    var n := |e.data|;
    off + HEADER + n <= |file| && off / BLOCK == (off + HEADER + n - 1) / BLOCK &&
    (file[off + 4] as int) + 256 * (file[off + 5] as int) == n && file[off + 6] == e.kind &&
    file[off + HEADER..off + HEADER + n] == e.data &&
    (c.verify ==> Unmask(FixedValue(file[off..off + 4]) % TWO32) == c.value(file[off + 6..off + HEADER + n]))
  }

  /** The reader's buffer and unread part are where they should be in the file. */
  predicate InFile(file: Bytes, st: ReaderState) {
    st.end <= |file| && st.file == file[st.end..] &&
    |st.buffer| <= st.end && st.buffer == file[st.end - |st.buffer|..st.end] &&
    if st.eof then st.end == |file| && |st.buffer| <= st.end % BLOCK
    else st.end % BLOCK == 0 && |st.buffer| <= BLOCK
  }

  lemma RefillInFile(file: Bytes, st: ReaderState)
    requires InFile(file, st) && !st.eof
    ensures InFile(file, Refill(st))
  {
  }

  function Pos(st: ReaderState): nat
    requires |st.buffer| <= st.end
  {
    st.end - |st.buffer|
  }

  lemma SuffixInFile(file: Bytes, st: ReaderState, k: nat)
    requires InFile(file, st) && k <= |st.buffer|
    ensures InFile(file, st.(buffer := st.buffer[k..])) && Pos(st.(buffer := st.buffer[k..])) == Pos(st) + k
  {
    assert file[Pos(st)..st.end][k..] == file[Pos(st) + k..st.end];
  }

  lemma GoodLift(c: Checksum, file: Bytes, st: ReaderState, n: nat)
    requires InFile(file, st) && HEADER + n <= |st.buffer| && n == PayloadLength(st.buffer)
    requires c.verify ==> ChecksumOk(c, st.buffer)
    ensures GoodAt(c, file, Pos(st), Event(st.buffer[6], st.buffer[HEADER..HEADER + n], None))
  {
    hide FixedValue, Unmask;
    var b, base := st.buffer, Pos(st);
    assert b[4] == file[base + 4] && b[5] == file[base + 5] && b[6] == file[base + 6];
    SliceOfSlice(file, base, st.end, 0, 4);
    SliceOfSlice(file, base, st.end, 6, HEADER + n);
    SliceOfSlice(file, base, st.end, HEADER, HEADER + n);
    SameBlock(st.end, st.eof, |b|, base + HEADER + n - 1);
  }

  /** A buffered header starts where one can. */
  lemma HeaderHere(file: Bytes, st: ReaderState)
    requires InFile(file, st) && |st.buffer| >= HEADER
    ensures NextOffset(Pos(st)) == Pos(st)
  {
  }

  /** What a physical read from file offset `q` delivers. */
  ghost predicate Sound(c: Checksum, file: Bytes, q: nat, e: Event, st': ReaderState) {
    InFile(file, st') &&
    (IsData(e) ==> GoodAt(c, file, NextOffset(q), e) && Pos(st') == NextOffset(q) + HEADER + |e.data|)
  }

  /** Parsing a buffered header. */
  lemma ParseSound(c: Checksum, file: Bytes, st: ReaderState)
    requires InFile(file, st) && |st.buffer| >= HEADER
    ensures Sound(c, file, Pos(st), Parse(c, st).0, Parse(c, st).1)
  {
    hide FixedValue, Unmask, GoodAt;
    HeaderHere(file, st);
    SuffixInFile(file, st, |st.buffer|);
    var n := PayloadLength(st.buffer);
    if HEADER + n <= |st.buffer| && (c.verify ==> ChecksumOk(c, st.buffer)) {
      GoodLift(c, file, st, n);
      SuffixInFile(file, st, HEADER + n);
    }
  }

  lemma SameBlock(end: nat, eof: bool, n: nat, last: nat)
    requires HEADER <= n <= end && end - n <= last < end
    requires if eof then n <= end % BLOCK else end % BLOCK == 0 && n <= BLOCK
    ensures (end - n) / BLOCK == last / BLOCK
  {
  }

  /** Every physical record delivered is in the file, at the next place a header can start. */
  lemma {:induction false} PhysicalSound(c: Checksum, file: Bytes, st: ReaderState)
    requires InFile(file, st)
    ensures Sound(c, file, Pos(st), ReadPhysical(c, st).0, ReadPhysical(c, st).1)
    decreases |st.file|, if st.eof then 0 else 1
  {
    if |st.buffer| >= HEADER {
      ParseSound(c, file, st);
    } else if st.eof {
      SuffixInFile(file, st, |st.buffer|);
    } else {
      RefillInFile(file, st);
      RefillOffset(file, st);
      PhysicalSound(c, file, Refill(st));
    }
  }

  lemma RefillOffset(file: Bytes, st: ReaderState)
    requires InFile(file, st) && !st.eof && |st.buffer| < HEADER
    ensures Pos(Refill(st)) == st.end && NextOffset(st.end) == st.end == NextOffset(Pos(st))
  {
  }

  /** The file offset behind each event. */
  ghost function Offsets(c: Checksum, file: Bytes, st: ReaderState): (r: seq<nat>)
    requires InFile(file, st)
    decreases Size(st)
  {
    PhysicalSound(c, file, st);
    var (e, st') := ReadPhysical(c, st);
    if e.kind == EOF then [] else [NextOffset(Pos(st))] + Offsets(c, file, st')
  }

  /** Event `m` is a good physical record, and the event after it starts where it ends. */
  ghost predicate EventsGood(c: Checksum, file: Bytes, events: seq<Event>, offsets: seq<nat>) {
    |offsets| == |events| &&
    (forall m :: 0 <= m < |events| && IsData(events[m]) ==> GoodAt(c, file, offsets[m], events[m])) &&
    forall m, n :: 0 <= m < n < |events| && n == m + 1 && IsData(events[m]) ==>
      offsets[n] == NextOffset(offsets[m] + HEADER + |events[m].data|)
  }

  lemma {:induction false} EventsAreGood(c: Checksum, file: Bytes, st: ReaderState)
    requires InFile(file, st)
    ensures EventsGood(c, file, Events(c, st), Offsets(c, file, st))
    ensures Events(c, st) != [] ==> Offsets(c, file, st) != [] && Offsets(c, file, st)[0] == NextOffset(Pos(st))
    decreases Size(st)
  {
    hide Size, Events, Offsets, ReadPhysical;
    var (e, st') := ReadPhysical(c, st);
    PhysicalSound(c, file, st);
    if e.kind == EOF {
      NoEvents(c, file, st);
    } else {
      EventsAreGood(c, file, st');
      GoodCons(c, file, e, NextOffset(Pos(st)), Events(c, st'), Offsets(c, file, st'));
      UnfoldEvents(c, file, st);
    }
  }

  lemma NoEvents(c: Checksum, file: Bytes, st: ReaderState)
    requires InFile(file, st) && ReadPhysical(c, st).0.kind == EOF
    ensures Events(c, st) == [] && Offsets(c, file, st) == []
  {
  }

  lemma UnfoldEvents(c: Checksum, file: Bytes, st: ReaderState)
    requires InFile(file, st) && ReadPhysical(c, st).0.kind != EOF && InFile(file, ReadPhysical(c, st).1)
    ensures Events(c, st) == [ReadPhysical(c, st).0] + Events(c, ReadPhysical(c, st).1)
    ensures Offsets(c, file, st) == [NextOffset(Pos(st))] + Offsets(c, file, ReadPhysical(c, st).1)
  {
  }

  lemma GoodCons(c: Checksum, file: Bytes, e: Event, off: nat, events: seq<Event>, offsets: seq<nat>)
    requires EventsGood(c, file, events, offsets)
    requires IsData(e) ==>
      GoodAt(c, file, off, e) && (events != [] ==> offsets[0] == NextOffset(off + HEADER + |e.data|))
    ensures EventsGood(c, file, [e] + events, [off] + offsets)
  {
    hide IsData, GoodAt, NextOffset;
    var es, os := [e] + events, [off] + offsets;
    forall m | 0 <= m < |es| && IsData(es[m]) ensures GoodAt(c, file, os[m], es[m]) {
      assert m > 0 ==> es[m] == events[m - 1] && os[m] == offsets[m - 1];
    }
    forall m, n | 0 <= m < n < |es| && n == m + 1 && IsData(es[m])
      ensures os[n] == NextOffset(os[m] + HEADER + |es[m].data|)
    {
      assert os[n] == offsets[m];
      assert m > 0 ==> es[m] == events[m - 1] && os[m] == offsets[m - 1];
    }
  }

  // ---------- records are runs of events ----------

  function Join(events: seq<Event>, i: nat, j: nat): Bytes
    requires i <= j <= |events|
  {
    if i == j then [] else Join(events, i, j - 1) + events[j - 1].data
  }

  /** Events `i` to `j` are First Middle* and have the payload `data`. */
  ghost predicate OpenRun(events: seq<Event>, i: nat, j: nat, data: Bytes) {
    i <= j < |events| && events[i].kind == FIRST &&
    (forall m :: i < m <= j ==> events[m].kind == MIDDLE) && data == Join(events, i, j + 1)
  }

  /** Events `i` to `j` are one Full or First Middle* Last and have the payload `record`. */
  ghost predicate RecordRun(events: seq<Event>, i: nat, j: nat, record: Bytes) {
    i <= j < |events| && record == Join(events, i, j + 1) &&
    if i == j then events[i].kind == FULL
    else events[i].kind == FIRST && events[j].kind == LAST && forall m :: i < m < j ==> events[m].kind == MIDDLE
  }

  datatype Span = Span(from: nat, to: nat)

  ghost predicate SpansOk(events: seq<Event>, n: nat, records: seq<Bytes>, spans: seq<Span>) {
    |spans| == |records| &&
    (forall k :: 0 <= k < |spans| ==> spans[k].to < n && RecordRun(events, spans[k].from, spans[k].to, records[k])) &&
    forall k, l :: 0 <= k < l < |spans| ==> spans[k].to < spans[l].from
  }

  /** The record under way is an unbroken run up to the last event, after all finished ones. */
  ghost predicate UnderWay(events: seq<Event>, n: nat, p: Progress, from: nat, spans: seq<Span>) {
    p.inFragment ==>
      n > 0 && OpenRun(events, from, n - 1, p.scratch) && forall k :: 0 <= k < |spans| ==> spans[k].to < from
  }

  lemma FeedKeepsRuns(events: seq<Event>, n: nat, p: Progress, from: nat, spans: seq<Span>)
    returns (from': nat, spans': seq<Span>)
    requires n < |events| && SpansOk(events, n, p.records, spans) && UnderWay(events, n, p, from, spans)
    ensures var p' := Feed(p, events[n]);
      SpansOk(events, n + 1, p'.records, spans') && UnderWay(events, n + 1, p', from', spans')
  {
    hide Unfinished;
    var e := events[n];
    from', spans' := from, spans;
    if e.kind == FULL {
      spans' := spans + [Span(n, n)];
      JoinOne(events, n);
    } else if e.kind == FIRST {
      from' := n;
      JoinOne(events, n);
    } else if e.kind == LAST && p.inFragment {
      spans' := spans + [Span(from, n)];
    }
  }

  lemma JoinOne(events: seq<Event>, n: nat)
    requires n < |events|
    ensures Join(events, n, n + 1) == events[n].data
  {
    assert [] + events[n].data == events[n].data;
  }

  lemma {:induction false} RunsFrom(events: seq<Event>, n: nat, p: Progress, from: nat, spans: seq<Span>)
    returns (spans': seq<Span>)
    requires n <= |events| && SpansOk(events, n, p.records, spans) && UnderWay(events, n, p, from, spans)
    ensures SpansOk(events, |events|, FeedAll(p, events[n..]).records, spans')
    decreases |events| - n
  {
    if n == |events| {
      return spans;
    }
    assert events[n..][1..] == events[n + 1..];
    var from', more := FeedKeepsRuns(events, n, p, from, spans);
    spans' := RunsFrom(events, n + 1, Feed(p, events[n]), from', more);
  }

  // ---------- the whole reader ----------

  /** The physical records of a span are good and follow one another in the file with nothing but a
      block trailer between. */
  ghost predicate ContiguousGood(c: Checksum, file: Bytes, events: seq<Event>, offsets: seq<nat>, s: Span) {
    s.from <= s.to < |events| == |offsets| &&
    (forall m :: s.from <= m <= s.to ==> GoodAt(c, file, offsets[m], events[m])) &&
    forall m, n :: s.from <= m < n <= s.to && n == m + 1 ==>
      offsets[n] == NextOffset(offsets[m] + HEADER + |events[m].data|)
  }

  /** For any file: each record returned is the payload of one run of good physical records, one Full
      or First Middle* Last, contiguous in the file; runs of different records do not overlap. */
  lemma RecordsAreWholeRuns(c: Checksum, file: Bytes) returns (offsets: seq<nat>, spans: seq<Span>)
    ensures var events := Events(c, Opened(file));
      SpansOk(events, |events|, ReadLog(c, file).records, spans) &&
      forall k :: 0 <= k < |spans| ==> ContiguousGood(c, file, events, offsets, spans[k])
  {
    hide Events, Offsets, EventsGood, ContiguousGood, RecordRun, FeedAll;
    var events := Events(c, Opened(file));
    assert events[0..] == events;
    spans := RunsFrom(events, 0, CLEAN, 0, []);
    EventsAreGood(c, file, Opened(file));
    offsets := Offsets(c, file, Opened(file));
    forall k | 0 <= k < |spans| ensures ContiguousGood(c, file, events, offsets, spans[k]) {
      RunIsGood(c, file, events, offsets, spans[k], ReadLog(c, file).records[k]);
    }
  }

  lemma RunIsGood(c: Checksum, file: Bytes, events: seq<Event>, offsets: seq<nat>, s: Span, record: Bytes)
    requires EventsGood(c, file, events, offsets) && RecordRun(events, s.from, s.to, record)
    ensures ContiguousGood(c, file, events, offsets, s)
  {
    hide GoodAt;
    RunIsData(events, s, record);
  }

  lemma RunIsData(events: seq<Event>, s: Span, record: Bytes)
    requires RecordRun(events, s.from, s.to, record)
    ensures forall m :: s.from <= m <= s.to ==> IsData(events[m])
  {
  }

  // ---------- nothing is lost without a report ----------

  function SumOf(reports: seq<nat>): nat {
    if reports == [] then 0 else SumOf(reports[..|reports| - 1]) + reports[|reports| - 1]
  }

  function LengthOf(records: seq<Bytes>): nat {
    if records == [] then 0 else LengthOf(records[..|records| - 1]) + |records[|records| - 1]|
  }

  /** The bytes that the physical layer delivers or reports as dropped. */
  function BytesOf(events: seq<Event>): nat {
    if events == [] then 0
    else |events[0].data| + (if events[0].dropped.Some? then events[0].dropped.value else 0) + BytesOf(events[1..])
  }

  /** Bytes in returned records, reported bytes, and bytes of the record under way. */
  function Accounted(p: Progress): nat {
    LengthOf(p.records) + SumOf(p.reports) + |p.scratch|
  }

  lemma ReportAdds(p: Progress, bytes: Option<nat>)
    ensures Accounted(Report(p, bytes)) == Accounted(p) + if bytes.Some? then bytes.value else 0
  {
    if bytes.Some? {
      assert (p.reports + [bytes.value])[..|p.reports|] == p.reports;
    }
  }

  lemma RecordAdds(p: Progress, record: Bytes)
    ensures Accounted(p.(inFragment := false, scratch := [], records := p.records + [record])) ==
      Accounted(p) - |p.scratch| + |record|
  {
    assert (p.records + [record])[..|p.records|] == p.records;
  }

  ghost predicate ProgressOk(p: Progress) {
    !p.inFragment ==> p.scratch == []
  }

  lemma FeedAccounts(p: Progress, e: Event)
    requires ProgressOk(p)
    ensures ProgressOk(Feed(p, e))
    ensures Accounted(Feed(p, e)) == Accounted(p) + (if e.kind == BAD then 0 else |e.data|) +
      if e.dropped.Some? then e.dropped.value else 0
  {
    hide Accounted;
    var q := Report(p, e.dropped);
    ReportAdds(p, e.dropped);
    ScratchCounts(q);
    ReportAdds(q, Unfinished(q));
    ReportAdds(q, Some(|e.data|));
    ReportAdds(q, Some(|q.scratch|));
    ReportAdds(q, Some(|e.data| + if q.inFragment then |q.scratch| else 0));
    RecordAdds(Report(q, Unfinished(q)), e.data);
    RecordAdds(q, q.scratch + e.data);
    NewScratch(Report(q, Unfinished(q)), true, e.data);
    NewScratch(q, q.inFragment, q.scratch + e.data);
    NewScratch(Report(q, Some(|q.scratch|)), false, []);
    NewScratch(Report(q, Some(|e.data| + if q.inFragment then |q.scratch| else 0)), false, []);
  }

  lemma NewScratch(p: Progress, inFragment: bool, scratch: Bytes)
    ensures Accounted(p.(inFragment := inFragment, scratch := scratch)) == Accounted(p) - |p.scratch| + |scratch|
  {
  }

  lemma ScratchCounts(p: Progress)
    ensures Accounted(p) >= |p.scratch|
  {
  }

  /** The payloads stored under the type number that stands for a bad record. */
  function Unreported(events: seq<Event>): nat {
    if events == [] then 0 else (if events[0].kind == BAD then |events[0].data| else 0) + Unreported(events[1..])
  }

  lemma {:induction false} UnreportedNone(events: seq<Event>)
    ensures Unreported(events) == 0 <==> forall i :: 0 <= i < |events| && events[i].kind == BAD ==> events[i].data == []
  {
    if events == [] {
    } else {
      UnreportedNone(events[1..]);
      assert forall i :: 0 < i < |events| ==> events[i] == events[1..][i - 1];
      if forall i :: 0 <= i < |events| && events[i].kind == BAD ==> events[i].data == [] {
        assert forall i :: 0 <= i < |events[1..]| ==> events[1..][i] == events[i + 1];
      }
    }
  }

  lemma {:induction false} AllAccounted(p: Progress, events: seq<Event>)
    requires ProgressOk(p)
    ensures ProgressOk(FeedAll(p, events))
    ensures Accounted(FeedAll(p, events)) + Unreported(events) == Accounted(p) + BytesOf(events)
    decreases |events|
  {
    if events == [] {
    } else {
      FeedAccounts(p, events[0]);
      AllAccounted(Feed(p, events[0]), events[1..]);
    }
  }

  /** Conservation, for any file: the bytes the physical layer delivers or drops are those in returned
      records, those reported, and those of the record under way when the file ends, exactly if no
      payload is stored under the type number 6, which the reader takes for its own bad-record code. */
  lemma NothingLostSilently(c: Checksum, file: Bytes)
    ensures var log, events := ReadLog(c, file), Events(c, Opened(file));
      LengthOf(log.records) + SumOf(log.reports) + |log.scratch| + Unreported(events) == BytesOf(events) &&
      (LengthOf(log.records) + SumOf(log.reports) + |log.scratch| == BytesOf(events) <==>
       forall i :: 0 <= i < |events| && events[i].kind == BAD ==> events[i].data == [])
  {
    AllAccounted(CLEAN, Events(c, Opened(file)));
    UnreportedNone(Events(c, Opened(file)));
  }

  /** Such a payload is lost: a file with one record of type 6 reads back as empty, with no report. */
  lemma TypeSixIsLost(c: Checksum)
    requires !c.verify
    ensures var file: Bytes := [0, 0, 0, 0, 1, 0, 6, 42];
      ReadLog(c, file) == CLEAN && BytesOf(Events(c, Opened(file))) == 1
  {
    var file: Bytes := [0, 0, 0, 0, 1, 0, 6, 42];
    var st := ReaderState(file, [], true, 8);
    var e, st' := Event(BAD, [42], None), ReaderState([], [], true, 8);
    assert file[..8] == file && file[8..] == [] && Refill(Opened(file)) == st;
    assert file[HEADER..HEADER + 1] == [42] && Parse(c, st) == (e, st');
    assert ReadPhysical(c, Opened(file)) == (e, st') && Events(c, st') == [];
    assert Events(c, Opened(file)) == [e] + [] && [e][1..] == [];
    assert Feed(CLEAN, e) == CLEAN && FeedAll(CLEAN, [e]) == FeedAll(CLEAN, []) == CLEAN;
  }

  /** A header whose record runs past a full block, or whose checksum is wrong, costs the whole buffer,
      which is reported; only a preallocated region and a torn end of the file go unreported. */
  lemma DamageIsReported(c: Checksum, st: ReaderState)
    requires |st.buffer| >= HEADER
    ensures var b := st.buffer; var n := (b[4] as int) + 256 * (b[5] as int); var (e, st') := ReadPhysical(c, st);
      if HEADER + n > |b| then
        st'.buffer == [] && if st.eof then e == Event(EOF, [], None) else e == Event(BAD, [], Some(|b|))
      else if b[6] == ZERO && n == 0 then st'.buffer == [] && e == Event(BAD, [], None)
      else if c.verify && Unmask(FixedValue(b[..4]) % TWO32) != c.value(b[6..HEADER + n]) then
        st'.buffer == [] && e == Event(BAD, [], Some(|b|))
      else e == Event(b[6], b[HEADER..HEADER + n], None) && st'.buffer == b[HEADER + n..]
    ensures ReadPhysical(c, st).1.file == st.file && ReadPhysical(c, st).1.eof == st.eof
  {
  }

  /** A middle or last fragment without a beginning is reported and joins no record. */
  lemma OrphanIsReported(p: Progress, e: Event)
    requires !p.inFragment && e.dropped.None? && (e.kind == MIDDLE || e.kind == LAST)
    ensures Feed(p, e) == p.(reports := p.reports + [|e.data|])
  {
  }
}
