/** What reading a log gives back: every record of an undamaged log, a prefix of them when the file
    is cut short at any byte, and never a mixture of two records whatever the bytes are.
  */
module LogRoundTrip {
  import opened Keys
  import opened Coding
  import opened Log
  import opened Sequences

  // ---------- the reader's state in a file ----------

  /** The state with `rest` still to come and `room` bytes left in the buffered block. */
  function Buffered(rest: Bytes, room: nat, q: nat): ReaderState {
    if room <= |rest| then ReaderState(rest[..room], rest[room..], false, q + room)
    else ReaderState(rest, [], true, q + |rest|)
  }

  /** The state after a physical record ends at block offset `o`, file offset `q`. */
  function At(rest: Bytes, o: nat, q: nat): ReaderState
    requires o <= BLOCK
  {
    Buffered(rest, if o == 0 then 0 else BLOCK - o, q)
  }

  /** Skipping a trailer and entering a block are part of the next physical read. */
  lemma SkipTrailer(c: Checksum, rest: Bytes, o: nat, q: nat)
    requires o <= BLOCK && Pad(o) <= |rest|
    ensures ReadPhysical(c, At(rest, o, q)) ==
            ReadPhysical(c, Buffered(rest[Pad(o)..], BLOCK - Start(o), q + Pad(o)))
  {
    if o == 0 || BLOCK - o < HEADER {
      EndOfBlock(rest, o, q);
      RefillIsBuffered(At(rest, o, q));
      ReadRefills(c, At(rest, o, q));
    } else {
      assert rest[0..] == rest;
    }
  }

  /** At a block's end the buffer holds the trailer and the file everything after it. */
  lemma EndOfBlock(rest: Bytes, o: nat, q: nat)
    requires o <= BLOCK && Pad(o) <= |rest| && (o == 0 || BLOCK - o < HEADER)
    ensures At(rest, o, q) == ReaderState(rest[..Pad(o)], rest[Pad(o)..], false, q + Pad(o)) && Start(o) == 0
  {
  }

  lemma RefillIsBuffered(st: ReaderState)
    ensures Refill(st) == Buffered(st.file, BLOCK, st.end)
  {
    assert st.file[..|st.file|] == st.file && st.file[|st.file|..] == [];
  }

  lemma ReadRefills(c: Checksum, st: ReaderState)
    requires |st.buffer| < HEADER && !st.eof
    ensures ReadPhysical(c, st) == ReadPhysical(c, Refill(st))
  {
  }

  lemma HeaderParses(c: Checksum, kind: Byte, data: Bytes, buffer: Bytes)
    requires Lawful(c) && |data| <= 0xffff
    requires |buffer| >= HEADER && buffer[..HEADER] == HeaderBytes(c, kind, data)
    ensures PayloadLength(buffer) == |data| && buffer[6] == kind
    ensures Unmask(FixedValue(buffer[..4]) % TWO32) == c.value([kind] + data)
  {
    hide Unmask, FixedValue;
    var h := HeaderBytes(c, kind, data);
    var crc := c.extend(c.value([kind]), data);
    assert crc == c.value([kind] + data);
    assert h[4] == |data| % 256 && h[5] == |data| / 256 && h[6] == kind;
    assert buffer[4] == h[4] && buffer[5] == h[5] && buffer[6] == h[6];
    assert buffer[..4] == buffer[..HEADER][..4] == Fixed32(Mask(crc));
    Fixed32RoundTrip(Mask(crc));
    MaskRoundTrip(crc);
  }

  /** A whole physical record in the buffered block is delivered as it was written. */
  lemma ParseWritten(c: Checksum, f: Event, body: Bytes, tail: Bytes, room: nat, q: nat)
    requires Lawful(c) && 0 < f.kind < EOF && f.dropped.None? && HEADER + |f.data| <= room <= BLOCK
    requires body == HeaderBytes(c, f.kind, f.data) + f.data
    ensures ReadPhysical(c, Buffered(body + tail, room, q)) ==
            (f, Buffered(tail, room - |body|, q + |body|))
  {
    hide Lawful, HeaderBytes;
    var rest, st := body + tail, Buffered(body + tail, room, q);
    var b := st.buffer;
    assert |b| >= |body| && b[..|body|] == body;
    assert b[..HEADER] == b[..|body|][..HEADER] == HeaderBytes(c, f.kind, f.data);
    HeaderParses(c, f.kind, f.data, b);
    assert b[HEADER..|body|] == b[..|body|][HEADER..] == f.data;
    assert b[6..|body|] == [f.kind] + f.data;
    assert b[|body|..] == Buffered(tail, room - |body|, q + |body|).buffer;
    assert Parse(c, st) == (f, st.(buffer := b[|body|..]));
    if room <= |rest| {
      assert rest[room..] == tail[room - |body|..];
    }
  }

  lemma ParseCut(c: Checksum, f: Event, body: Bytes, n: nat, room: nat, q: nat)
    requires Lawful(c) && f.kind < 256 && HEADER + |f.data| <= room <= BLOCK
    requires body == HeaderBytes(c, f.kind, f.data) + f.data && n < |body|
    ensures ReadPhysical(c, Buffered(body[..n], room, q)).0 == Event(EOF, [], None)
  {
    var st := Buffered(body[..n], room, q);
    assert st.eof && st.buffer == body[..n];
    if n >= HEADER {
      assert st.buffer[..HEADER] == HeaderBytes(c, f.kind, f.data);
      HeaderParses(c, f.kind, f.data, st.buffer);
    }
  }

  predicate Plain(f: Event) {
    0 < f.kind < EOF && f.dropped.None?
  }

  lemma BytesSplit(c: Checksum, f: Event, o: nat, tail: Bytes)
    requires Lawful(c) && Fits(f, o)
    ensures var body := HeaderBytes(c, f.kind, f.data) + f.data;
      EventBytes(c, f, o) == Zeros(Pad(o)) + body &&
      (EventBytes(c, f, o) + tail)[Pad(o)..] == body + tail
  {
    var body := HeaderBytes(c, f.kind, f.data) + f.data;
    var z := Zeros(Pad(o));
    assert z + HeaderBytes(c, f.kind, f.data) + f.data == z + body;
    assert z + body + tail == z + (body + tail);
  }

  /** Reading on at a physical record that is wholly there. */
  lemma ReadWritten(c: Checksum, f: Event, o: nat, q: nat, tail: Bytes)
    requires Lawful(c) && Fits(f, o) && Plain(f)
    ensures ReadPhysical(c, At(EventBytes(c, f, o) + tail, o, q)) ==
            (f, At(tail, EndOf(f, o), q + (Pad(o) + HEADER + |f.data|)))
  {
    hide Lawful, ReadPhysical;
    var body := HeaderBytes(c, f.kind, f.data) + f.data;
    BytesSplit(c, f, o, tail);
    ParseWritten(c, f, body, tail, BLOCK - Start(o), q + Pad(o));
    ReadPast(c, f, o, q, EventBytes(c, f, o) + tail, body, tail);
  }

  lemma ReadPast(c: Checksum, f: Event, o: nat, q: nat, rest: Bytes, body: Bytes, tail: Bytes)
    requires Fits(f, o) && Pad(o) <= |rest| && rest[Pad(o)..] == body + tail && |body| == HEADER + |f.data|
    requires ReadPhysical(c, Buffered(body + tail, BLOCK - Start(o), q + Pad(o))) ==
             (f, Buffered(tail, BLOCK - Start(o) - |body|, q + Pad(o) + |body|))
    ensures ReadPhysical(c, At(rest, o, q)) == (f, At(tail, EndOf(f, o), q + (Pad(o) + HEADER + |f.data|)))
  {
    SkipTrailer(c, rest, o, q);
    AtEnd(f, o, tail, q);
  }

  lemma AtEnd(f: Event, o: nat, tail: Bytes, q: nat)
    requires Fits(f, o)
    ensures Buffered(tail, BLOCK - Start(o) - (HEADER + |f.data|), q + Pad(o) + (HEADER + |f.data|))
         == At(tail, EndOf(f, o), q + (Pad(o) + HEADER + |f.data|))
  {
  }

  /** Reading on at a physical record that the end of the file cuts short. */
  lemma ReadCut(c: Checksum, f: Event, o: nat, q: nat, n: nat)
    requires Lawful(c) && Fits(f, o) && Plain(f) && n < |EventBytes(c, f, o)|
    ensures ReadPhysical(c, At(EventBytes(c, f, o)[..n], o, q)).0 == Event(EOF, [], None)
  {
    var whole := EventBytes(c, f, o);
    if n >= Pad(o) {
      SkipTrailer(c, whole[..n], o, q);
      BytesSplit(c, f, o, []);
      assert whole + [] == whole;
      var body := HeaderBytes(c, f.kind, f.data) + f.data;
      assert whole[..n][Pad(o)..] == whole[Pad(o)..][..n - Pad(o)];
      ParseCut(c, f, body, n - Pad(o), BLOCK - Start(o), q + Pad(o));
    }
  }

  // ---------- events of a log cut at any byte ----------

  ghost predicate AllPlain(frags: seq<Event>) {
    forall i :: 0 <= i < |frags| ==> Plain(frags[i])
  }

  /** `file` delivers `events`, the state being at block offset `o`. */
  ghost predicate Delivers(c: Checksum, file: Bytes, o: nat, q: nat, events: seq<Event>)
    requires o <= BLOCK
  {
    Events(c, At(file, o, q)) == events
  }

  /** The first `n` bytes of a log deliver exactly the physical records they hold whole. */
  lemma {:induction false} EventsOfPrefix(c: Checksum, frags: seq<Event>, o: nat, q: nat, n: nat) returns (k: nat)
    requires Lawful(c) && FitsAll(frags, o) && AllPlain(frags) && n <= |LayOut(c, frags, o)|
    ensures k <= |frags| && Delivers(c, LayOut(c, frags, o)[..n], o, q, frags[..k])
    ensures n == |LayOut(c, frags, o)| ==> k == |frags|
    decreases |frags|
  {
    hide Lawful, EventBytes, Delivers;
    if frags == [] {
      NothingDelivered(c, o, q);
      assert frags[..0] == frags && LayOut(c, frags, o)[..n] == [];
      return 0;
    }
    var o' := EndOf(frags[0], o);
    var head, tail := EventBytes(c, frags[0], o), LayOut(c, frags[1..], o');
    if n < |head| {
      assert LayOut(c, frags, o)[..n] == head[..n];
      EventsCut(c, frags[0], o, q, n);
      return 0;
    }
    TakeBytes(head, tail, n);
    var j := EventsOfPrefix(c, frags[1..], o', q + |head|, n - |head|);
    EventsWritten(c, frags[0], o, q, tail[..n - |head|], frags[1..][..j]);
    k := j + 1;
    TakeEvents(frags, j, k);
  }

  lemma NothingDelivered(c: Checksum, o: nat, q: nat)
    requires o <= BLOCK
    ensures Delivers(c, [], o, q, [])
  {
  }

  lemma TakeBytes(head: Bytes, tail: Bytes, n: nat)
    requires |head| <= n <= |head| + |tail|
    ensures (head + tail)[..n] == head + tail[..n - |head|]
  {
  }

  lemma TakeEvents(frags: seq<Event>, j: nat, k: nat)
    requires k == j + 1 <= |frags|
    ensures [frags[0]] + frags[1..][..j] == frags[..k]
  {
  }

  lemma EventsWritten(c: Checksum, f: Event, o: nat, q: nat, rest: Bytes, events: seq<Event>)
    requires Lawful(c) && Fits(f, o) && Plain(f)
    requires Delivers(c, rest, EndOf(f, o), q + |EventBytes(c, f, o)|, events)
    ensures Delivers(c, EventBytes(c, f, o) + rest, o, q, [f] + events)
  {
    hide Lawful, EndOf;
    ReadWritten(c, f, o, q, rest);
    EventsCons(c, At(EventBytes(c, f, o) + rest, o, q), f, At(rest, EndOf(f, o), q + |EventBytes(c, f, o)|));
  }

  lemma EventsCut(c: Checksum, f: Event, o: nat, q: nat, n: nat)
    requires Lawful(c) && Fits(f, o) && Plain(f) && n < |EventBytes(c, f, o)|
    ensures Delivers(c, EventBytes(c, f, o)[..n], o, q, [])
  {
    ReadCut(c, f, o, q, n);
  }

  lemma EventsCons(c: Checksum, st: ReaderState, f: Event, st': ReaderState)
    requires ReadPhysical(c, st) == (f, st') && f.kind != EOF
    ensures Events(c, st) == [f] + Events(c, st')
  {
  }

  // ---------- assembling records ----------

  lemma {:induction false} FeedConcat(p: Progress, a: seq<Event>, b: seq<Event>)
    ensures FeedAll(p, a + b) == FeedAll(FeedAll(p, a), b)
    decreases |a|
  {
    if a == [] {
      assert a + b == b;
    } else {
      assert (a + b)[1..] == a[1..] + b;
      FeedConcat(Feed(p, a[0]), a[1..], b);
    }
  }

  ghost predicate Ready(p: Progress, begin: bool) {
    p.inFragment == !begin && (begin ==> p.scratch == [])
  }

  lemma {:induction false} FragmentsPlain(data: Bytes, begin: bool, o: nat)
    requires o <= BLOCK
    ensures AllPlain(Fragments(data, begin, o))
    decreases |data|, if o == BLOCK - HEADER then 1 else 0
  {
    FragmentsUnfold(data, begin, o);
    var (n, f) := FirstFragment(data, begin, o);
    if n < |data| {
      FragmentsPlain(data[n..], false, EndOf(f, o));
    }
  }

  /** All fragments of a record put the record together again; some of them leave it unfinished. */
  lemma {:induction false} FeedRecord(p: Progress, data: Bytes, begin: bool, o: nat, k: nat)
    requires o <= BLOCK && Ready(p, begin) && k <= |Fragments(data, begin, o)|
    ensures k == |Fragments(data, begin, o)| ==>
      FeedAll(p, Fragments(data, begin, o)[..k]) == Progress(false, [], p.records + [p.scratch + data], p.reports)
    ensures k < |Fragments(data, begin, o)| ==>
      var r := FeedAll(p, Fragments(data, begin, o)[..k]); r.records == p.records && r.reports == p.reports
    decreases |data|, if o == BLOCK - HEADER then 1 else 0
  {
    FragmentsUnfold(data, begin, o);
    var frags := Fragments(data, begin, o);
    if k > 0 {
      var (n, f) := FirstFragment(data, begin, o);
      var p' := Feed(p, f);
      FeedFragment(p, data, begin, n);
      assert frags[..k] == [f] + frags[1..][..k - 1];
      FeedCons(p, f, frags[1..][..k - 1]);
      if n < |data| {
        FeedRecord(p', data[n..], false, EndOf(f, o), k - 1);
      }
    }
  }

  lemma FeedCons(p: Progress, f: Event, more: seq<Event>)
    ensures FeedAll(p, [f] + more) == FeedAll(Feed(p, f), more)
  {
    assert ([f] + more)[1..] == more;
  }

  lemma FeedFragment(p: Progress, data: Bytes, begin: bool, n: nat)
    requires Ready(p, begin) && n <= |data|
    ensures var p' := Feed(p, Event(Kind(begin, n == |data|), data[..n], None));
      if n == |data| then p' == Progress(false, [], p.records + [p.scratch + data], p.reports)
      else
        p' == Progress(true, p.scratch + data[..n], p.records, p.reports) &&
        p'.scratch + data[n..] == p.scratch + data
  {
    assert data == data[..n] + data[n..];
    assert begin ==> p.scratch + data[..n] == data[..n];
    assert n == |data| ==> data[..n] == data;
    Associative(p.scratch, data[..n], data[n..]);
  }

  // ---------- whole logs ----------

  /** The physical records of a log that starts with its first block filled up to `o`. */
  ghost function LogFragments(records: seq<Bytes>, o: nat): (r: seq<Event>)
    requires o <= BLOCK
    ensures FitsAll(r, o)
    decreases |records|
  {
    if records == [] then []
    else
      var first := Fragments(records[0], true, o);
      var more := LogFragments(records[1..], EndOffset(first, o));
      FitsConcat(first, more, o);
      first + more
  }

  lemma {:induction false} FitsConcat(a: seq<Event>, b: seq<Event>, o: nat)
    requires FitsAll(a, o) && FitsAll(b, EndOffset(a, o))
    ensures FitsAll(a + b, o) && EndOffset(a + b, o) == EndOffset(b, EndOffset(a, o))
    decreases |a|
  {
    if a == [] {
      assert a + b == b;
    } else {
      assert (a + b)[1..] == a[1..] + b;
      FitsConcat(a[1..], b, EndOf(a[0], o));
    }
  }

  lemma {:induction false} LayOutConcat(c: Checksum, a: seq<Event>, b: seq<Event>, o: nat)
    requires Lawful(c) && FitsAll(a, o) && FitsAll(b, EndOffset(a, o)) && FitsAll(a + b, o)
    ensures LayOut(c, a + b, o) == LayOut(c, a, o) + LayOut(c, b, EndOffset(a, o))
    decreases |a|
  {
    if a == [] {
      assert a + b == b;
    } else {
      assert (a + b)[1..] == a[1..] + b;
      LayOutConcat(c, a[1..], b, EndOf(a[0], o));
      Associative(EventBytes(c, a[0], o), LayOut(c, a[1..], EndOf(a[0], o)), LayOut(c, b, EndOffset(a, o)));
    }
  }

  lemma {:induction false} LogFragmentsPlain(records: seq<Bytes>, o: nat)
    requires o <= BLOCK
    ensures AllPlain(LogFragments(records, o))
    decreases |records|
  {
    if records == [] {
    } else {
      FragmentsPlain(records[0], true, o);
      LogFragmentsPlain(records[1..], EndOffset(Fragments(records[0], true, o), o));
    }
  }

  /** Any number of leading physical records of a log gives back a prefix of the records. */
  lemma {:induction false} FeedLog(p: Progress, records: seq<Bytes>, o: nat, k: nat) returns (m: nat)
    requires o <= BLOCK && Ready(p, true) && k <= |LogFragments(records, o)|
    ensures m <= |records|
    ensures var r := FeedAll(p, LogFragments(records, o)[..k]);
      r.records == p.records + records[..m] && r.reports == p.reports
    ensures k == |LogFragments(records, o)| ==> m == |records|
    decreases |records|
  {
    var all := LogFragments(records, o);
    if records == [] {
      return 0;
    }
    var first := Fragments(records[0], true, o);
    var o' := EndOffset(first, o);
    if k < |first| {
      assert all[..k] == first[..k];
      FeedRecord(p, records[0], true, o, k);
      return 0;
    }
    var more := LogFragments(records[1..], o');
    assert all[..k] == first[..|first|] + more[..k - |first|];
    FeedRecord(p, records[0], true, o, |first|);
    FeedConcat(p, first[..|first|], more[..k - |first|]);
    var p' := FeedAll(p, first[..|first|]);
    assert p' == Progress(false, [], p.records + [records[0]], p.reports) by {
      assert first[..|first|] == first && p.scratch + records[0] == records[0];
    }
    m := FeedLog(p', records[1..], o', k - |first|);
    TakeOneMore(p.records, records, m);
    m := m + 1;
  }

  lemma TakeOneMore(before: seq<Bytes>, records: seq<Bytes>, m: nat)
    requires m < |records|
    ensures before + [records[0]] + records[1..][..m] == before + records[..m + 1]
  {
  }

  /** Writing records to a new file. */
  method WriteLog(c: Checksum, records: seq<Bytes>) returns (file: Bytes)
    requires Lawful(c)
    ensures file == LayOut(c, LogFragments(records, 0), 0)
  {
    var writer := new Writer(c);
    assert records[0..] == records;
    for i := 0 to |records|
      invariant fresh(writer) && writer.Valid() && writer.checksum == c
      invariant writer.dest + LayOut(c, LogFragments(records[i..], writer.blockOffset), writer.blockOffset)
             == LayOut(c, LogFragments(records, 0), 0)
    {
      ghost var o, before := writer.blockOffset, writer.dest;
      ghost var first := Fragments(records[i], true, o);
      assert records[i..][1..] == records[i + 1..];
      LayOutConcat(c, first, LogFragments(records[i + 1..], EndOffset(first, o)), o);
      Associative(before, LayOut(c, first, o),
        LayOut(c, LogFragments(records[i + 1..], EndOffset(first, o)), EndOffset(first, o)));
      writer.AddRecord(records[i]);
    }
    assert records[|records|..] == [];
    assert writer.dest + [] == writer.dest;
    file := writer.dest;
  }

  /** Any prefix of the bytes of a log reads back as a prefix of its records, with nothing reported
      as corrupt; the whole log reads back whole. */
  lemma PrefixReadsBack(c: Checksum, records: seq<Bytes>, n: nat) returns (m: nat)
    requires Lawful(c) && n <= |LayOut(c, LogFragments(records, 0), 0)|
    ensures m <= |records|
    ensures var r := ReadLog(c, LayOut(c, LogFragments(records, 0), 0)[..n]);
      r.records == records[..m] && r.reports == []
    ensures n == |LayOut(c, LogFragments(records, 0), 0)| ==> m == |records|
  {
    var frags := LogFragments(records, 0);
    var file := LayOut(c, frags, 0)[..n];
    LogFragmentsPlain(records, 0);
    var k := EventsOfPrefix(c, frags, 0, 0, n);
    assert At(file, 0, 0) == Opened(file);
    m := FeedLog(CLEAN, records, 0, k);
    assert CLEAN.records + records[..m] == records[..m];
  }

  lemma RoundTrip(c: Checksum, records: seq<Bytes>)
    requires Lawful(c)
    ensures var r := ReadLog(c, LayOut(c, LogFragments(records, 0), 0)); r.records == records && r.reports == []
  {
    var file := LayOut(c, LogFragments(records, 0), 0);
    var m := PrefixReadsBack(c, records, |file|);
    assert file[..|file|] == file && records[..m] == records;
  }
}
