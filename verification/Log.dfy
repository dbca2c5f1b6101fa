/** The write-ahead log (log_format.h, log_writer.cc, log_reader.cc): records are cut into
    physical records that never cross a block, and read back through a block buffer.
  */
module Log {
  import opened Keys
  import opened Coding
  import opened Sequences

  const BLOCK: nat := 32768
  const HEADER: nat := 7

  const ZERO: nat := 0
  const FULL: nat := 1
  const FIRST: nat := 2
  const MIDDLE: nat := 3
  const LAST: nat := 4
  /** Codes the reader adds for the end of the file and for bytes it rejects. */
  const EOF: nat := 5
  const BAD: nat := 6

  /** The checksum, and whether the reader verifies it. */
  datatype Checksum = Checksum(value: Bytes -> nat, extend: (nat, Bytes) -> nat, verify: bool)

  /** crc32c::Extend continues a checksum over more bytes. */
  ghost predicate Lawful(c: Checksum) {
    (forall a :: c.value(a) < TWO32) &&
      forall a, b {:trigger c.extend(c.value(a), b)} :: c.extend(c.value(a), b) == c.value(a + b)
  }

  /** A physical record as the reader delivers it, with the bytes it reports as dropped. */
  datatype Event = Event(kind: nat, data: Bytes, dropped: Option<nat>)

  // ---------- writing ----------

  /** Zero bytes that fill a block too short for another header. */
  function Pad(o: nat): nat
    requires o <= BLOCK
  {
    if BLOCK - o < HEADER then BLOCK - o else 0
  }

  /** Where in its block the next physical record starts. */
  function Start(o: nat): (r: nat)
    requires o <= BLOCK
    ensures r + HEADER <= BLOCK
  {
    if BLOCK - o < HEADER then 0 else o
  }

  function Zeros(n: nat): (z: Bytes)
    ensures |z| == n
  {
    seq(n, i => 0)
  }

  function EndOf(f: Event, o: nat): nat
    requires o <= BLOCK
  {
    Start(o) + HEADER + |f.data|
  }

  predicate Fits(f: Event, o: nat) {
    o <= BLOCK && EndOf(f, o) <= BLOCK && f.kind < 256
  }

  /** The checksum, length and type in front of a payload. */
  function HeaderBytes(c: Checksum, kind: Byte, data: Bytes): (b: Bytes)
    requires Lawful(c) && |data| <= 0xffff
    ensures |b| == HEADER
  {
    assert c.extend(c.value([kind]), data) == c.value([kind] + data);
    Fixed32(Mask(c.extend(c.value([kind]), data))) + [|data| % 256, |data| / 256, kind]
  }

  function EventBytes(c: Checksum, f: Event, o: nat): (b: Bytes)
    requires Lawful(c) && Fits(f, o)
    ensures |b| == Pad(o) + HEADER + |f.data|
  {
    Zeros(Pad(o)) + HeaderBytes(c, f.kind, f.data) + f.data
  }

  ghost predicate FitsAll(frags: seq<Event>, o: nat) {
    o <= BLOCK && (frags != [] ==> Fits(frags[0], o) && FitsAll(frags[1..], EndOf(frags[0], o)))
  }

  ghost function LayOut(c: Checksum, frags: seq<Event>, o: nat): Bytes
    requires Lawful(c) && FitsAll(frags, o)
  {
    if frags == [] then []
    else EventBytes(c, frags[0], o) + LayOut(c, frags[1..], EndOf(frags[0], o))
  }

  ghost function EndOffset(frags: seq<Event>, o: nat): (r: nat)
    requires FitsAll(frags, o)
    ensures r <= BLOCK
  {
    if frags == [] then o else EndOffset(frags[1..], EndOf(frags[0], o))
  }

  function Kind(begin: bool, end: bool): nat {
    if begin then if end then FULL else FIRST else if end then LAST else MIDDLE
  }

  /** How AddRecord cuts the rest of a record, the block being filled up to `o`. */
  function Fragments(data: Bytes, begin: bool, o: nat): (r: seq<Event>)
    requires o <= BLOCK
    ensures FitsAll(r, o) && r != []
    decreases |data|, if o == BLOCK - HEADER then 1 else 0
  {
    var avail := BLOCK - Start(o) - HEADER;
    var n := if |data| < avail then |data| else avail;
    var f := Event(Kind(begin, n == |data|), data[..n], None);
    if n == |data| then
      [f]
    else
      var more := Fragments(data[n..], false, EndOf(f, o));
      assert ([f] + more)[1..] == more;
      [f] + more
  }

  /** The first fragment and what is left to cut after it. */
  function FirstFragment(left: Bytes, begin: bool, o: nat): (r: (nat, Event))
    requires o <= BLOCK
    ensures r.0 <= |left| && Fits(r.1, o)
  {
    var avail := BLOCK - Start(o) - HEADER;
    var n := if |left| < avail then |left| else avail;
    (n, Event(Kind(begin, n == |left|), left[..n], None))
  }

  lemma FragmentsUnfold(left: Bytes, begin: bool, o: nat)
    requires o <= BLOCK
    ensures var (n, f) := FirstFragment(left, begin, o);
      Fragments(left, begin, o) == [f] + if n == |left| then [] else Fragments(left[n..], false, EndOf(f, o))
  {
  }

  lemma LayOutCons(c: Checksum, f: Event, more: seq<Event>, o: nat)
    requires Lawful(c) && Fits(f, o) && FitsAll(more, EndOf(f, o))
    ensures FitsAll([f] + more, o)
    ensures LayOut(c, [f] + more, o) == EventBytes(c, f, o) + LayOut(c, more, EndOf(f, o))
    ensures EndOffset([f] + more, o) == EndOffset(more, EndOf(f, o))
  {
    assert ([f] + more)[1..] == more;
  }

  class Writer {
    const checksum: Checksum
    var dest: Bytes
    var blockOffset: nat

    ghost predicate Valid() reads this {
      Lawful(checksum) && blockOffset <= BLOCK
    }

    constructor (checksum: Checksum)
      requires Lawful(checksum)
      ensures Valid() && this.checksum == checksum && dest == [] && blockOffset == 0
    {
      this.checksum := checksum;
      dest, blockOffset := [], 0;
    }

    method EmitPhysicalRecord(kind: Byte, data: Bytes)
      requires Valid() && blockOffset + HEADER + |data| <= BLOCK
      modifies this
      ensures Valid() && dest == old(dest) + HeaderBytes(checksum, kind, data) + data
      ensures blockOffset == old(blockOffset) + HEADER + |data|
    {
      var crc := checksum.extend(checksum.value([kind]), data);
      assert crc == checksum.value([kind] + data);
      dest := dest + (Fixed32(Mask(crc)) + [|data| % 256, |data| / 256, kind]);
      dest := dest + data;
      blockOffset := blockOffset + HEADER + |data|;
    }

    /** Moves to a new block when the current one has no room for a header. */
    method FillTrailer()
      requires Valid()
      modifies this
      ensures Valid() && blockOffset == Start(old(blockOffset))
      ensures dest == old(dest) + Zeros(Pad(old(blockOffset)))
    {
      var leftover := BLOCK - blockOffset;
      if leftover < HEADER {
        if leftover > 0 {
          dest := dest + Zeros(leftover);
        }
        blockOffset := 0;
      }
    }

    /** One round of the loop: emits the next fragment of `left`, after a trailer if needed. */
    method EmitFragment(left: Bytes, begin: bool) returns (n: nat, end: bool)
      requires Valid()
      modifies this
      ensures Valid() && n == FirstFragment(left, begin, old(blockOffset)).0 && (end <==> n == |left|)
      ensures var f := FirstFragment(left, begin, old(blockOffset)).1;
        blockOffset == EndOf(f, old(blockOffset)) && dest == old(dest) + EventBytes(checksum, f, old(blockOffset))
    {
      FillTrailer();
      var avail := BLOCK - blockOffset - HEADER;
      n := if |left| < avail then |left| else avail;
      end := |left| == n;
      EmitPhysicalRecord(Kind(begin, end), left[..n]);
    }

    /** Appends one record, cut as `Fragments` says. */
    method AddRecord(data: Bytes)
      requires Valid()
      modifies this
      ensures Valid()
      ensures dest == old(dest) + LayOut(checksum, Fragments(data, true, old(blockOffset)), old(blockOffset))
      ensures blockOffset == EndOffset(Fragments(data, true, old(blockOffset)), old(blockOffset))
    {
      var left, begin, done := data, true, false;
      ghost var written: Bytes := [];
      assert Emitted(checksum, data, blockOffset, written, false, data, true, blockOffset);
      while !done
        invariant Valid() && dest == old(dest) + written
        invariant Emitted(checksum, data, old(blockOffset), written, done, left, begin, blockOffset)
        decreases !done, |left|, if blockOffset == BLOCK - HEADER then 1 else 0
      {
        ghost var o, sofar := blockOffset, written;
        var n, end := EmitFragment(left, begin);
        written := EmittedStep(checksum, data, old(blockOffset), written, left, begin, o);
        Associative(old(dest), sofar, EventBytes(checksum, FirstFragment(left, begin, o).1, o));
        left, begin, done := left[n..], false, end;
      }
    }
  }

  /** `written` and the fragments still to come make up the layout of the whole record. */
  ghost predicate Emitted(c: Checksum, data: Bytes, start: nat, written: Bytes, done: bool, left: Bytes, begin: bool,
                          o: nat)
    requires Lawful(c) && start <= BLOCK && o <= BLOCK
  {
    var whole := Fragments(data, true, start);
    if done then written == LayOut(c, whole, start) && o == EndOffset(whole, start)
    else
      var rest := Fragments(left, begin, o);
      written + LayOut(c, rest, o) == LayOut(c, whole, start) && EndOffset(rest, o) == EndOffset(whole, start)
  }

  lemma EmittedStep(c: Checksum, data: Bytes, start: nat, written: Bytes, left: Bytes, begin: bool, o: nat)
    returns (written': Bytes)
    requires Lawful(c) && start <= BLOCK && o <= BLOCK && Emitted(c, data, start, written, false, left, begin, o)
    ensures var (n, f) := FirstFragment(left, begin, o);
      written' == written + EventBytes(c, f, o) &&
      Emitted(c, data, start, written', n == |left|, left[n..], false, EndOf(f, o)) &&
      n <= |left| && (n < |left| ==> n > 0 || (EndOf(f, o) == BLOCK && o == BLOCK - HEADER))
  {
    hide Lawful;
    var (n, f) := FirstFragment(left, begin, o);
    var more := if n == |left| then [] else Fragments(left[n..], false, EndOf(f, o));
    FragmentsUnfold(left, begin, o);
    LayOutCons(c, f, more, o);
    written' := written + EventBytes(c, f, o);
    assert written + (EventBytes(c, f, o) + LayOut(c, more, EndOf(f, o))) == written' + LayOut(c, more, EndOf(f, o));
  }

  // ---------- reading ----------

  /** The block buffer, the unread rest of the file, whether a short block was seen, and the file
      offset just past the buffer. */
  datatype ReaderState = ReaderState(buffer: Bytes, file: Bytes, eof: bool, end: nat)

  function Size(st: ReaderState): nat {
    |st.buffer| + |st.file|
  }

  function Refill(st: ReaderState): (r: ReaderState)
    ensures |r.buffer| + |r.file| == |st.file| && (r.eof || |r.file| < |st.file|)
  {
    var n := if |st.file| < BLOCK then |st.file| else BLOCK;
    ReaderState(st.file[..n], st.file[n..], n < BLOCK, st.end + n)
  }

  /** Drops the buffer and reports `dropped` if given. */
  function Discard(st: ReaderState, kind: nat, dropped: Option<nat>): (Event, ReaderState) {
    (Event(kind, [], dropped), st.(buffer := []))
  }

  function PayloadLength(buffer: Bytes): nat
    requires |buffer| >= HEADER
  {
    (buffer[4] as int) + 256 * (buffer[5] as int)
  }

  /** The stored checksum agrees with the type byte and the payload. */
  predicate ChecksumOk(c: Checksum, buffer: Bytes)
    requires |buffer| >= HEADER && HEADER + PayloadLength(buffer) <= |buffer|
  {
    Unmask(FixedValue(buffer[..4]) % TWO32) == c.value(buffer[6..HEADER + PayloadLength(buffer)])
  }

  function Parse(c: Checksum, st: ReaderState): (Event, ReaderState)
    requires |st.buffer| >= HEADER
  {
    var n := PayloadLength(st.buffer);
    var kind := st.buffer[6];
    if HEADER + n > |st.buffer| then
      if st.eof then Discard(st, EOF, None) else Discard(st, BAD, Some(|st.buffer|))
    else if kind == ZERO && n == 0 then Discard(st, BAD, None)
    else if c.verify && !ChecksumOk(c, st.buffer) then Discard(st, BAD, Some(|st.buffer|))
    else (Event(kind, st.buffer[HEADER..HEADER + n], None), st.(buffer := st.buffer[HEADER + n..]))
  }

  function ReadPhysical(c: Checksum, st: ReaderState): (r: (Event, ReaderState))
    ensures r.0.kind != EOF ==> Size(r.1) < Size(st)
    decreases |st.file|, if st.eof then 0 else 1
  {
    if |st.buffer| >= HEADER then Parse(c, st)
    else if st.eof then Discard(st, EOF, None)
    else ReadPhysical(c, Refill(st))
  }

  /** Everything the reader delivers up to the end of the file. */
  function Events(c: Checksum, st: ReaderState): seq<Event>
    decreases Size(st)
  {
    var (e, st') := ReadPhysical(c, st);
    if e.kind == EOF then [] else [e] + Events(c, st')
  }

  /** The reader's progress: a record being put together, those returned, the reported drops. */
  datatype Progress = Progress(inFragment: bool, scratch: Bytes, records: seq<Bytes>, reports: seq<nat>)

  function Report(p: Progress, bytes: Option<nat>): Progress {
    if bytes.Some? then p.(reports := p.reports + [bytes.value]) else p
  }

  /** A record that starts while another is unfinished: the bytes of the other are lost. */
  function Unfinished(p: Progress): Option<nat> {
    if p.inFragment && p.scratch != [] then Some(|p.scratch|) else None
  }

  function Feed(p: Progress, e: Event): Progress {
    var q := Report(p, e.dropped);
    if e.kind == FULL then
      Report(q, Unfinished(q)).(inFragment := false, scratch := [], records := q.records + [e.data])
    else if e.kind == FIRST then
      Report(q, Unfinished(q)).(inFragment := true, scratch := e.data)
    else if e.kind == MIDDLE then
      if q.inFragment then q.(scratch := q.scratch + e.data) else Report(q, Some(|e.data|))
    else if e.kind == LAST then
      if q.inFragment then q.(inFragment := false, scratch := [], records := q.records + [q.scratch + e.data])
      else Report(q, Some(|e.data|))
    else if e.kind == BAD then
      if q.inFragment then Report(q, Some(|q.scratch|)).(inFragment := false, scratch := []) else q
    else
      Report(q, Some(|e.data| + if q.inFragment then |q.scratch| else 0)).(inFragment := false, scratch := [])
  }

  function FeedAll(p: Progress, events: seq<Event>): Progress
    decreases |events|
  {
    if events == [] then p else FeedAll(Feed(p, events[0]), events[1..])
  }

  const CLEAN: Progress := Progress(false, [], [], [])

  function Opened(file: Bytes): ReaderState {
    ReaderState([], file, false, 0)
  }

  /** All records and reports of reading a file from its start. */
  function ReadLog(c: Checksum, file: Bytes): Progress {
    FeedAll(CLEAN, Events(c, Opened(file)))
  }

  class Reader {
    const checksum: Checksum
    var buffer: Bytes
    var file: Bytes
    var eof: bool
    var endOfBufferOffset: nat
    var reports: seq<nat>

    ghost function State(): ReaderState reads this {
      ReaderState(buffer, file, eof, endOfBufferOffset)
    }

    constructor (checksum: Checksum, file: Bytes)
      ensures this.checksum == checksum && State() == Opened(file) && reports == []
    {
      this.checksum := checksum;
      buffer, this.file, eof, endOfBufferOffset, reports := [], file, false, 0, [];
    }

    method ReportCorruption(bytes: nat)
      modifies this`reports
      ensures reports == old(reports) + [bytes]
    {
      reports := reports + [bytes];
    }

    /** Takes one physical record off a buffer that holds at least a header. */
    method ParseBuffer() returns (kind: nat, fragment: Bytes)
      requires |buffer| >= HEADER
      modifies this
      ensures Delivered(Parse(checksum, old(State())), kind, fragment, old(reports))
    {
      var length := (buffer[4] as int) + 256 * (buffer[5] as int);
      var t := buffer[6];
      if HEADER + length > |buffer| {
        var drop := |buffer|;
        buffer := [];
        if !eof {
          ReportCorruption(drop);
          return BAD, [];
        }
        return EOF, [];
      }
      if t == ZERO && length == 0 {
        buffer := [];
        return BAD, [];
      }
      if checksum.verify {
        var expected := Unmask(FixedValue(buffer[..4]) % TWO32);
        var actual := checksum.value(buffer[6..HEADER + length]);
        if actual != expected {
          var drop := |buffer|;
          buffer := [];
          ReportCorruption(drop);
          return BAD, [];
        }
      }
      fragment := buffer[HEADER..HEADER + length];
      buffer := buffer[HEADER + length..];
      kind := t;
    }

    /** The outcome of a physical read: new state, result and a possible report. */
    ghost predicate Delivered(r: (Event, ReaderState), kind: nat, fragment: Bytes, before: seq<nat>) reads this {
      State() == r.1 && kind == r.0.kind && fragment == r.0.data &&
      reports == before + if r.0.dropped.Some? then [r.0.dropped.value] else []
    }

    method ReadPhysicalRecord() returns (kind: nat, fragment: Bytes)
      modifies this
      ensures Delivered(ReadPhysical(checksum, old(State())), kind, fragment, old(reports))
    {
      hide Parse;
      while |buffer| < HEADER
        invariant ReadPhysical(checksum, State()) == ReadPhysical(checksum, old(State()))
        invariant reports == old(reports)
        decreases |file|, if eof then 0 else 1
      {
        if !eof {
          var n := if |file| < BLOCK then |file| else BLOCK;
          buffer, file, endOfBufferOffset := file[..n], file[n..], endOfBufferOffset + n;
          if |buffer| < BLOCK {
            eof := true;
          }
        } else {
          buffer := [];
          return EOF, [];
        }
      }
      kind, fragment := ParseBuffer();
    }

    /** Reads on while `p` describes the progress made, reports aside. */
    method ReadNext(ghost p: Progress) returns (kind: nat, fragment: Bytes)
      requires p.reports == reports
      modifies this
      ensures kind == EOF ==> FeedAll(p, old(Events(checksum, State()))) == p && reports == p.reports
      ensures kind != EOF ==>
        FeedAll(p, old(Events(checksum, State()))) ==
        FeedAll(Feed(p.(reports := reports), Event(kind, fragment, None)), Events(checksum, State())) &&
        Size(State()) < old(Size(State()))
    {
      ghost var r := ReadPhysical(checksum, State());
      PhysicalDrops(checksum, State());
      kind, fragment := ReadPhysicalRecord();
      if kind != EOF {
        FeedNext(checksum, p, old(State()));
        FeedReported(p, r.0);
        assert p.(reports := reports) == Report(p, r.0.dropped);
      }
    }

    /** What reading on would deliver after `records`, with `scratch` under way. */
    ghost function Outcome(inFragment: bool, scratch: Bytes, records: seq<Bytes>): Progress reads this {
      FeedAll(Progress(inFragment, scratch, records, reports), Events(checksum, State()))
    }

    /** Returns the next record that the log holds, given those read before. */
    method ReadRecord(ghost before: seq<Bytes>) returns (record: Option<Bytes>)
      modifies this
      ensures record.Some? ==>
        Outcome(false, [], before + [record.value]) == old(Outcome(false, [], before)) &&
          Size(State()) < old(Size(State()))
      ensures record.None? ==>
        old(Outcome(false, [], before)).records == before && old(Outcome(false, [], before)).reports == reports
    {
      hide FeedAll, Events;
      var scratch: Bytes, inFragment := [], false;
      while true
        invariant !inFragment ==> scratch == []
        invariant Outcome(inFragment, scratch, before) == old(Outcome(false, [], before))
        invariant Size(State()) <= old(Size(State()))
        decreases Size(State())
      {
        var kind, fragment := ReadNext(Progress(inFragment, scratch, before, reports));
        if kind == EOF {
          return None;
        }
        if kind == FULL {
          if inFragment && scratch != [] { ReportCorruption(|scratch|); }
          return Some(fragment);
        } else if kind == FIRST {
          if inFragment && scratch != [] { ReportCorruption(|scratch|); }
          scratch, inFragment := fragment, true;
        } else if kind == MIDDLE {
          if !inFragment { ReportCorruption(|fragment|); } else { scratch := scratch + fragment; }
        } else if kind == LAST {
          if !inFragment {
            ReportCorruption(|fragment|);
          } else {
            return Some(scratch + fragment);
          }
        } else if kind == BAD {
          if inFragment {
            ReportCorruption(|scratch|);
            inFragment, scratch := false, [];
          }
        } else {
          ReportCorruption(|fragment| + if inFragment then |scratch| else 0);
          inFragment, scratch := false, [];
        }
      }
      record := None;
    }
  }

  lemma FeedNext(c: Checksum, p: Progress, st: ReaderState)
    requires ReadPhysical(c, st).0.kind != EOF
    ensures FeedAll(p, Events(c, st)) == FeedAll(Feed(p, ReadPhysical(c, st).0), Events(c, ReadPhysical(c, st).1))
  {
  }

  /** Reaching the end of the file reports nothing. */
  lemma PhysicalDrops(c: Checksum, st: ReaderState)
    ensures ReadPhysical(c, st).0.kind == EOF ==> ReadPhysical(c, st).0.dropped == None
    decreases |st.file|, if st.eof then 0 else 1
  {
  }

  lemma FeedReported(p: Progress, e: Event)
    ensures Feed(p, e) == Feed(Report(p, e.dropped), Event(e.kind, e.data, None))
  {
  }

  /** Reading a file to its end, as recovery does. */
  method ReadAll(c: Checksum, file: Bytes) returns (records: seq<Bytes>, reports: seq<nat>)
    ensures records == ReadLog(c, file).records && reports == ReadLog(c, file).reports
  {
    var reader := new Reader(c, file);
    records := [];
    while true
      invariant fresh(reader) && reader.checksum == c
      invariant reader.Outcome(false, [], records) == ReadLog(c, file)
      decreases Size(reader.State())
    {
      var record := reader.ReadRecord(records);
      if record.None? {
        return records, reader.reports;
      }
      records := records + [record.value];
    }
    reports := [];
  }
}
