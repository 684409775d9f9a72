/** The trace file: written by flush_trace_file (tools/mali_trace/mali_trace.c), read and
    summarised by tools/mali_trace/decode.py. */
module TraceFile {
  import opened Common
  import opened LittleEndian
  import opened PackedRecord
  import opened TraceEvents
  import opened TraceNames
  import FdTracking
  import MaliTrace

  const U16 := Field(2, false)
  const U32 := Field(4, false)
  const U64 := Field(8, false)
  const I32 := Field(4, true)
  const I64 := Field(8, true)

  /** The header after its eight magic bytes. */
  const HEADER: seq<Field> := [U32, U32, U32, U32, U64]
  /** An event before its four bytes of padding. */
  const EVENT: seq<Field> := [U64, U64, U64, U64, I64, I32, I32, I32, U16, U16, U16, U16]
  const HEADER_SIZE: nat := 32
  const EVENT_SIZE: nat := 64
  const MAGIC: seq<byte> := [0x4d, 0x41, 0x4c, 0x49, 0x54, 0x52, 0x30, 0x31]
  const PADDING: seq<byte> := [0, 0, 0, 0]
  const VERSION: nat := 1

  lemma LayoutSizes()
    ensures (Size(HEADER), Size(EVENT)) == (24, 60)
  {
    SizeOfFour(U32, U32, U32, U32);
    SizeConcat([U32, U32, U32, U32], [U64]);
    assert [U64][1..] == [];
    assert HEADER == [U32, U32, U32, U32] + [U64];
    SizeOfFour(U64, U64, U64, U64);
    SizeOfFour(I64, I32, I32, I32);
    SizeOfFour(U16, U16, U16, U16);
    SizeConcat([U64, U64, U64, U64], [I64, I32, I32, I32]);
    SizeConcat([U64, U64, U64, U64] + [I64, I32, I32, I32], [U16, U16, U16, U16]);
    assert EVENT == [U64, U64, U64, U64] + [I64, I32, I32, I32] + [U16, U16, U16, U16];
  }

  // ------------------------------------------------------------------- one event

  /** Every field is in the range of its C type. */
  ghost predicate InRange(e: TraceEvent) { Fits(EVENT, Fields(e)) }

  function FromFields(v: seq<int>): TraceEvent
    requires Fits(EVENT, v)
  {
    assert forall i | 0 <= i < |EVENT| && !EVENT[i].signed :: FitsOne(EVENT[i], v[i]) && v[i] >= 0;
    TraceEvent(v[0], v[1], v[2], v[3], v[4], v[5], v[6], v[7], v[8], v[9], v[10], v[11])
  }

  function EncodeEvent(e: TraceEvent): (s: seq<byte>)
    requires InRange(e)
    ensures |s| == EVENT_SIZE
  {
    LayoutSizes();
    Pack(EVENT, Fields(e)) + PADDING
  }

  function DecodeEvent(s: seq<byte>): TraceEvent
    requires |s| == EVENT_SIZE
  {
    LayoutSizes();
    FromFields(Unpack(EVENT, s[..60]))
  }

  lemma {:induction false} DecodeEncodeEvent(e: TraceEvent)
    requires InRange(e)
    ensures DecodeEvent(EncodeEvent(e)) == e
  {
    LayoutSizes();
    UnpackPack(EVENT, Fields(e));
    assert EncodeEvent(e)[..60] == Pack(EVENT, Fields(e));
  }

  const OFFSETS: seq<nat> := [0, 8, 16, 24, 32, 40, 44, 48, 52, 54, 56, 58]

  lemma {:induction false} OffsetOf(i: nat)
    requires i < FIELDS
    ensures Size(EVENT[..i]) == OFFSETS[i]
  {
    if i > 0 {
      OffsetOf(i - 1);
      SizeConcat(EVENT[..i - 1], [EVENT[i - 1]]);
      assert EVENT[..i - 1] + [EVENT[i - 1]] == EVENT[..i];
      assert [EVENT[i - 1]][1..] == [];
    }
  }

  /** The bytes of an event are those of the C struct: the fields at their offsets, in the
      order of their declaration. */
  lemma {:induction false} EventLayout(e: TraceEvent, i: nat)
    requires InRange(e) && i < 12
    ensures var offset := [0, 8, 16, 24, 32, 40, 44, 48, 52, 54, 56, 58][i];
      var field := Field([8, 8, 8, 8, 8, 4, 4, 4, 2, 2, 2, 2][i], 4 <= i < 8);
      UnpackOne(field, EncodeEvent(e)[offset..offset + field.width])
        == [e.timestamp, e.arg, e.aux0, e.aux1, e.result, e.fd, e.tid, e.error,
            e.kind, e.requestNr, e.requestSize, e.flags][i]
  {
    hide UnpackOne, FitsOne, Pack, Size;
    LayoutSizes();
    OffsetOf(i);
    FieldAt(EVENT, Fields(e), i);
    var record, offset, width := Pack(EVENT, Fields(e)), OFFSETS[i], EVENT[i].width;
    assert EncodeEvent(e)[offset..offset + width] == record[offset..offset + width];
  }

  // -------------------------------------------------------------------- the file

  ghost predicate AllInRange(es: seq<TraceEvent>) {
    forall i | 0 <= i < |es| :: InRange(es[i])
  }

  function EncodeEvents(es: seq<TraceEvent>): (s: seq<byte>)
    requires AllInRange(es)
    ensures |s| == EVENT_SIZE * |es|
  {
    if es == [] then [] else EncodeEvents(es[..|es| - 1]) + EncodeEvent(es[|es| - 1])
  }

  /** The process and the loss count, as the header gives them. */
  datatype Header = Header(version: nat, eventSize: nat, capacity: nat, pid: nat, dropped: nat)

  predicate HeaderInRange(h: Header) {
    && h.version < Pow256(4) && h.eventSize < Pow256(4) && h.capacity < Pow256(4) && h.pid < Pow256(4)
    && h.dropped < Pow256(8)
  }

  function HeaderFields(h: Header): seq<int> { [h.version, h.eventSize, h.capacity, h.pid, h.dropped] }

  function EncodeHeader(h: Header): (s: seq<byte>)
    requires HeaderInRange(h)
    ensures |s| == HEADER_SIZE
  {
    LayoutSizes();
    MAGIC + Pack(HEADER, HeaderFields(h))
  }

  function HeaderFrom(v: seq<int>): Header
    requires Fits(HEADER, v)
  {
    assert forall i | 0 <= i < |HEADER| && !HEADER[i].signed :: FitsOne(HEADER[i], v[i]) && v[i] >= 0;
    Header(v[0], v[1], v[2], v[3], v[4])
  }

  function DecodeHeader(s: seq<byte>): Header
    requires |s| == HEADER_SIZE
  {
    LayoutSizes();
    HeaderFrom(Unpack(HEADER, s[8..]))
  }

  lemma {:induction false} DecodeEncodeHeader(h: Header)
    requires HeaderInRange(h)
    ensures DecodeHeader(EncodeHeader(h)) == h
    ensures EncodeHeader(h)[..8] == MAGIC
  {
    LayoutSizes();
    UnpackPack(HEADER, HeaderFields(h));
    assert EncodeHeader(h)[8..] == Pack(HEADER, HeaderFields(h));
  }

  lemma {:induction false} HeaderOffset(i: nat)
    requires i < 5
    ensures Size(HEADER[..i]) == 4 * i
  {
    if i > 0 {
      HeaderOffset(i - 1);
      SizeConcat(HEADER[..i - 1], [HEADER[i - 1]]);
      assert HEADER[..i - 1] + [HEADER[i - 1]] == HEADER[..i];
      assert [HEADER[i - 1]][1..] == [];
    }
  }

  /** So are those of the header, after the magic. */
  lemma {:induction false} HeaderLayout(h: Header, i: nat)
    requires HeaderInRange(h) && i < 5
    ensures var offset := [8, 12, 16, 20, 24][i];
      var field := Field([4, 4, 4, 4, 8][i], false);
      UnpackOne(field, EncodeHeader(h)[offset..offset + field.width])
        == [h.version, h.eventSize, h.capacity, h.pid, h.dropped][i]
  {
    assert Fits(HEADER, HeaderFields(h));
    hide UnpackOne, FitsOne, Pack, Size;
    LayoutSizes();
    HeaderOffset(i);
    FieldAt(HEADER, HeaderFields(h), i);
    var record, width := Pack(HEADER, HeaderFields(h)), HEADER[i].width;
    assert EncodeHeader(h)[8 + 4 * i..8 + 4 * i + width] == record[4 * i..4 * i + width];
  }

  /** The header flush_trace_file writes. */
  function FlushHeader(dropped: nat, eventCount: nat, pid: nat): Header {
    Header(VERSION, EVENT_SIZE, CAPACITY, pid,
           (dropped + if eventCount > CAPACITY then eventCount - CAPACITY else 0) % Pow256(8))
  }

  function FileOf(h: Header, es: seq<TraceEvent>): (s: seq<byte>)
    requires HeaderInRange(h) && AllInRange(es)
    ensures |s| == HEADER_SIZE + EVENT_SIZE * |es|
  {
    EncodeHeader(h) + EncodeEvents(es)
  }

  // ------------------------------------------------------------------ the decoder

  lemma SlotInside(length: nat, size: nat, n: nat)
    requires size > 0 && n <= length / size
    ensures n * size <= length
  {
    assert length / size * size <= length;
    assert n * size <= length / size * size;
  }

  /** The first n events, `size` bytes apart; of each only the first 64 bytes are read. */
  function EventsAt(data: seq<byte>, size: nat, n: nat): (es: seq<TraceEvent>)
    requires size >= EVENT_SIZE && HEADER_SIZE + n * size <= |data|
    ensures |es| == n
  {
    if n == 0 then []
    else
      var off := HEADER_SIZE + (n - 1) * size;
      EventsAt(data, size, n - 1) + [DecodeEvent(data[off..off + EVENT_SIZE])]
  }

  datatype Decoded =
    | TooShort
    | BadHeader
    | Events(header: Header, events: seq<TraceEvent>)

  function Count(length: nat, h: Header): (n: nat)
    requires length >= HEADER_SIZE && h.eventSize >= EVENT_SIZE
    ensures HEADER_SIZE + n * h.eventSize <= length
  {
    var n := Min((length - HEADER_SIZE) / h.eventSize, h.capacity);
    SlotInside(length - HEADER_SIZE, h.eventSize, n);
    n
  }

  function Decode(data: seq<byte>): Decoded {
    if |data| < HEADER_SIZE then TooShort
    else
      var h := DecodeHeader(data[..HEADER_SIZE]);
      if data[..8] != MAGIC || h.eventSize < EVENT_SIZE then BadHeader
      else Events(h, EventsAt(data, h.eventSize, Count(|data|, h)))
  }

  // -------------------------------------------------------------------- round trip

  /** Any file that starts with the encoding of some events decodes to them. */
  lemma {:induction false} EventsAtEncoded(data: seq<byte>, es: seq<TraceEvent>, n: nat)
    requires AllInRange(es) && n <= |es| && HEADER_SIZE + n * EVENT_SIZE <= |data|
    requires forall i | 0 <= i < n * EVENT_SIZE :: data[HEADER_SIZE + i] == EncodeEvents(es)[i]
    ensures EventsAt(data, EVENT_SIZE, n) == es[..n]
  {
    hide DecodeEvent, EncodeEvent, InRange, EncodeEvents;
    if n > 0 {
      EventsAtEncoded(data, es, n - 1);
      var off := (n - 1) * EVENT_SIZE;
      EncodedSlot(es, n - 1);
      assert data[HEADER_SIZE + off..HEADER_SIZE + off + EVENT_SIZE] == EncodeEvents(es)[off..off + EVENT_SIZE];
      DecodeEncodeEvent(es[n - 1]);
      assert es[..n] == es[..n - 1] + [es[n - 1]];
    }
  }

  lemma {:induction false} EncodedSlot(es: seq<TraceEvent>, k: nat)
    requires AllInRange(es) && k < |es|
    ensures EncodeEvents(es)[k * EVENT_SIZE..k * EVENT_SIZE + EVENT_SIZE] == EncodeEvent(es[k])
  {
    hide EncodeEvent, InRange;
    var n := |es| - 1;
    var front := EncodeEvents(es[..n]);
    assert EncodeEvents(es) == front + EncodeEvent(es[n]);
    if k < n {
      EncodedSlot(es[..n], k);
      assert k * EVENT_SIZE + EVENT_SIZE <= |front|;
      assert EncodeEvents(es)[k * EVENT_SIZE..k * EVENT_SIZE + EVENT_SIZE]
          == front[k * EVENT_SIZE..k * EVENT_SIZE + EVENT_SIZE];
    }
  }

  /** What is left of a flushed file after a truncation is read as far as complete events
      go; the whole file gives all of them back, field by field. */
  lemma {:induction false} DecodeTruncated(h: Header, es: seq<TraceEvent>, length: nat)
    requires HeaderInRange(h) && AllInRange(es) && |es| <= h.capacity && h.eventSize == EVENT_SIZE
    requires length <= |FileOf(h, es)|
    ensures Decode(FileOf(h, es)[..length])
         == if length < HEADER_SIZE then TooShort else Events(h, es[..(length - HEADER_SIZE) / EVENT_SIZE])
  {
    hide DecodeHeader, EncodeHeader, EncodeEvents, HeaderInRange, EventsAt;
    if length >= HEADER_SIZE {
      var file := FileOf(h, es);
      var data := file[..length];
      var n := (length - HEADER_SIZE) / EVENT_SIZE;
      DecodeEncodeHeader(h);
      assert data[..HEADER_SIZE] == EncodeHeader(h);
      assert data[..8] == EncodeHeader(h)[..8];
      assert Count(|data|, h) == n;
      EventsAtEncoded(data, es, n);
    }
  }

  lemma {:induction false} DecodeFile(h: Header, es: seq<TraceEvent>)
    requires HeaderInRange(h) && AllInRange(es) && |es| <= h.capacity && h.eventSize == EVENT_SIZE
    ensures Decode(FileOf(h, es)) == Events(h, es)
  {
    hide Decode, FileOf, HeaderInRange, AllInRange;
    DecodeTruncated(h, es, |FileOf(h, es)|);
    assert FileOf(h, es)[..|FileOf(h, es)|] == FileOf(h, es);
    assert es[..|es|] == es;
  }

  // --------------------------------------------------- any other file than ours

  /** Records of a larger size, as a later version of the tracer may write them. */
  function PaddedEvents(es: seq<TraceEvent>, pads: seq<seq<byte>>, size: nat): (s: seq<byte>)
    requires AllInRange(es) && |pads| == |es| && size >= EVENT_SIZE
    requires forall i | 0 <= i < |pads| :: |pads[i]| == size - EVENT_SIZE
    ensures |s| == |es| * size
  {
    if es == [] then []
    else
      var n := |es| - 1;
      assert |es| * size == n * size + size;
      PaddedEvents(es[..n], pads[..n], size) + (EncodeEvent(es[n]) + pads[n])
  }

  ghost predicate SlotHolds(data: seq<byte>, size: nat, k: nat, e: TraceEvent)
    requires InRange(e)
  {
    var off := HEADER_SIZE + k * size;
    off + EVENT_SIZE <= |data| && data[off..off + EVENT_SIZE] == EncodeEvent(e)
  }

  lemma {:induction false} EventsAtSlots(data: seq<byte>, size: nat, es: seq<TraceEvent>, n: nat)
    requires AllInRange(es) && n <= |es| && size >= EVENT_SIZE && HEADER_SIZE + n * size <= |data|
    requires forall k: nat | k < n :: SlotHolds(data, size, k, es[k])
    ensures EventsAt(data, size, n) == es[..n]
  {
    hide DecodeEvent, EncodeEvent, InRange;
    if n > 0 {
      assert n * size == (n - 1) * size + size;
      EventsAtSlots(data, size, es, n - 1);
      assert SlotHolds(data, size, n - 1, es[n - 1]);
      DecodeEncodeEvent(es[n - 1]);
      assert es[..n] == es[..n - 1] + [es[n - 1]];
    }
  }

  lemma Middle(a: seq<byte>, b: seq<byte>, c: seq<byte>)
    ensures (a + b + c)[|a|..|a| + |b|] == b
  {
  }

  lemma {:induction false} PaddedSlots(
      front: seq<byte>, es: seq<TraceEvent>, pads: seq<seq<byte>>, size: nat, tail: seq<byte>, k: nat)
    requires AllInRange(es) && |pads| == |es| && size >= EVENT_SIZE && |front| == HEADER_SIZE
    requires forall i | 0 <= i < |pads| :: |pads[i]| == size - EVENT_SIZE
    requires k < |es|
    ensures SlotHolds(front + PaddedEvents(es, pads, size) + tail, size, k, es[k])
  {
    hide EncodeEvent, InRange;
    var n := |es| - 1;
    var before := PaddedEvents(es[..n], pads[..n], size);
    var last := EncodeEvent(es[n]);
    if k < n {
      PaddedSlots(front, es[..n], pads[..n], size, last + pads[n] + tail, k);
      assert front + PaddedEvents(es, pads, size) + tail == front + before + (last + pads[n] + tail);
    } else {
      Middle(front + before, last, pads[n] + tail);
      assert front + PaddedEvents(es, pads, size) + tail == front + before + last + (pads[n] + tail);
    }
  }

  /** A file of records of any size from 64 bytes on, with any padding after each and an
      incomplete record at the end, decodes to its complete records, as many as the header
      has capacity for. */
  lemma {:induction false} DecodePadded(h: Header, es: seq<TraceEvent>, pads: seq<seq<byte>>, tail: seq<byte>)
    requires HeaderInRange(h) && AllInRange(es) && |pads| == |es| && EVENT_SIZE <= h.eventSize && |tail| < h.eventSize
    requires forall i | 0 <= i < |pads| :: |pads[i]| == h.eventSize - EVENT_SIZE
    ensures Decode(EncodeHeader(h) + PaddedEvents(es, pads, h.eventSize) + tail)
         == Events(h, es[..Min(|es|, h.capacity)])
  {
    hide DecodeHeader, EncodeHeader, HeaderInRange, EventsAt, PaddedEvents, SlotHolds;
    var data := EncodeHeader(h) + PaddedEvents(es, pads, h.eventSize) + tail;
    DecodeEncodeHeader(h);
    assert data[..HEADER_SIZE] == EncodeHeader(h);
    assert data[..8] == EncodeHeader(h)[..8];
    WholeRecords(|es|, h.eventSize, |tail|);
    var n := Min(|es|, h.capacity);
    assert Count(|data|, h) == n;
    forall k: nat | k < n ensures SlotHolds(data, h.eventSize, k, es[k]) {
      PaddedSlots(EncodeHeader(h), es, pads, h.eventSize, tail, k);
    }
    EventsAtSlots(data, h.eventSize, es, n);
  }

  lemma WholeRecords(n: nat, size: nat, rest: nat)
    requires rest < size
    ensures (n * size + rest) / size == n
  {
    var q := (n * size + rest) / size;
    assert size * q <= n * size + rest < size * q + size;
    if q < n { NoGap(size, q, n); }
    if n < q { NoGap(size, n, q); }
  }

  lemma NoGap(size: nat, lo: nat, hi: nat)
    requires lo < hi
    ensures size * lo + size <= size * hi
  {
    assert size * (hi - lo - 1) >= 0;
  }

  /** Every file is refused, as too short or for its magic or record size, or decoded. */
  lemma {:induction false} RefusedIff(magic: seq<byte>, h: Header, rest: seq<byte>)
    requires |magic| == 8 && HeaderInRange(h)
    ensures var d := Decode(magic + EncodeHeader(h)[8..] + rest);
      && (d.BadHeader? <==> magic != [0x4d, 0x41, 0x4c, 0x49, 0x54, 0x52, 0x30, 0x31] || h.eventSize < 64)
      && (!d.BadHeader? ==> d.Events? && d.header == h)
  {
    hide DecodeHeader, EncodeHeader, HeaderInRange, EventsAt;
    var data := magic + EncodeHeader(h)[8..] + rest;
    assert data[..8] == magic;
    assert data[..HEADER_SIZE][8..] == EncodeHeader(h)[8..];
    SameFields(data[..HEADER_SIZE], EncodeHeader(h));
    DecodeEncodeHeader(h);
  }

  /** The magic is not a field of the header. */
  lemma SameFields(s: seq<byte>, t: seq<byte>)
    requires |s| == |t| == HEADER_SIZE && s[8..] == t[8..]
    ensures DecodeHeader(s) == DecodeHeader(t)
  {
  }

  // --------------------------------------------------------------------- flushing

  lemma BlankInRange()
    ensures InRange(BLANK)
  {
    Powers();
    BoundedInRange(BLANK);
  }

  /** The array of a tracer whose log is in range is in range, even after the event counter
      has wrapped. */
  lemma {:induction false} SlotsInRange(slots: seq<TraceEvent>, dropped: nat, log: seq<TraceEvent>)
    requires FdTracking.Stores(slots, dropped, log) && AllInRange(log)
    ensures AllInRange(slots)
  {
    hide InRange, RecordAll;
    BlankInRange();
  }

  /** flush_trace_file on an open trace file; the bytes written. For a log of less than 2^32
      events they are those of recording it, so the decoder gives its first events back. */
  method FlushTraceFile(t: FdTracking.Tracer, pid: nat) returns (file: seq<byte>)
    requires t.Valid() && pid < Pow256(4) && AllInRange(t.log)
    ensures AllInRange(t.events[..]) && HeaderInRange(FlushHeader(t.dropped, t.eventCount, pid))
    ensures file == FileOf(FlushHeader(t.dropped, t.eventCount, pid), t.events[..Min(t.eventCount, CAPACITY)])
    ensures |t.log| < WORD ==>
      && file == FileOf(FlushHeader(t.dropped, t.eventCount, pid), RecordAll(t.log).stored)
      && Decode(file) == Events(FlushHeader(t.dropped, t.eventCount, pid), t.log[..Min(|t.log|, CAPACITY)])
  {
    SlotsInRange(t.events[..], t.dropped, t.log);
    FlushedTracer(t, pid);
    hide RecordAll, InRange, Decode, FileOf, FlushHeader, HeaderInRange, FdTracking.Stores;
    var count := t.eventCount;
    if count > CAPACITY { count := CAPACITY; }
    HeaderFits(t.dropped, t.eventCount, pid);
    file := WriteFile(FlushHeader(t.dropped, t.eventCount, pid), t.events, count);
  }

  /** The two writes: the header, then the first slots of the array one after another. */
  method WriteFile(h: Header, events: array<TraceEvent>, count: nat) returns (file: seq<byte>)
    requires HeaderInRange(h) && AllInRange(events[..]) && count <= events.Length
    ensures file == FileOf(h, events[..count])
  {
    hide InRange, EncodeHeader, EncodeEvent, HeaderInRange;
    file := EncodeHeader(h);
    for i := 0 to count
      invariant file == FileOf(h, events[..i])
    {
      file := file + EncodeEvent(events[i]);
      assert events[..i + 1][..i] == events[..i];
    }
  }

  lemma StoredOf(slots: seq<TraceEvent>, dropped: nat, log: seq<TraceEvent>)
    requires FdTracking.Stores(slots, dropped, log) && |log| < WORD
    ensures slots[..Min(|log|, CAPACITY)] == RecordAll(log).stored && dropped == RecordAll(log).dropped
  {
  }

  lemma {:induction false} FlushedTracer(t: FdTracking.Tracer, pid: nat)
    requires t.Valid() && pid < Pow256(4) && AllInRange(t.log)
    ensures |t.log| < WORD ==>
      && t.eventCount == |t.log|
      && t.events[..Min(t.eventCount, CAPACITY)] == RecordAll(t.log).stored
      && AllInRange(RecordAll(t.log).stored)
      && HeaderInRange(FlushHeader(t.dropped, t.eventCount, pid))
      && Decode(FileOf(FlushHeader(t.dropped, t.eventCount, pid), RecordAll(t.log).stored))
      == Events(FlushHeader(t.dropped, t.eventCount, pid), t.log[..Min(|t.log|, CAPACITY)])
  {
    hide FdTracking.Stores, RecordAll, InRange, Decode, FileOf, FlushHeader, HeaderInRange;
    if |t.log| < WORD {
      StoredOf(t.events[..], t.dropped, t.log);
      ReportOfLog(t.log, pid);
    }
  }

  lemma HeaderFits(dropped: nat, eventCount: nat, pid: nat)
    requires pid < Pow256(4)
    ensures HeaderInRange(FlushHeader(dropped, eventCount, pid))
  {
    assert Pow256(4) == 0x1_0000_0000;
  }

  // ------------------------------------------------------------------- the summary

  function KeyOf(e: TraceEvent): IoctlKey { IoctlKey(e.aux0 % 0x100, e.requestNr, e.requestSize) }

  /** The counters of the decoder; types and ioctls are counted by name. */
  datatype Tally = Tally(
    byType: multiset<string>,
    byFd: multiset<int>,
    byThread: multiset<int>,
    ioctls: multiset<string>,
    ioctlErrors: multiset<string>,
    first: Option<nat>,
    last: Option<nat>)

  function Earlier(a: Option<nat>, ts: nat): Option<nat> {
    if a.None? || ts < a.value then Some(ts) else a
  }

  function Later(a: Option<nat>, ts: nat): Option<nat> {
    if a.None? || ts > a.value then Some(ts) else a
  }

  function CountEvent(t: Tally, e: TraceEvent): Tally {
    Tally(
      t.byType + multiset{TypeName(e.kind)}, t.byFd + multiset{e.fd}, t.byThread + multiset{e.tid},
      if e.kind == IOCTL then t.ioctls + multiset{IoctlName(KeyOf(e))} else t.ioctls,
      if e.kind == IOCTL && e.error != 0 then t.ioctlErrors + multiset{IoctlName(KeyOf(e))} else t.ioctlErrors,
      Earlier(t.first, e.timestamp), Later(t.last, e.timestamp))
  }

  const NO_EVENTS := Tally(multiset{}, multiset{}, multiset{}, multiset{}, multiset{}, None, None)

  function TallyOf(es: seq<TraceEvent>): Tally {
    if es == [] then NO_EVENTS else CountEvent(TallyOf(es[..|es| - 1]), es[|es| - 1])
  }

  predicate Sums(t: Tally, n: nat) {
    && |t.byType| == |t.byFd| == |t.byThread| == n
    && |t.ioctls| == t.byType["ioctl"]
    && t.ioctlErrors <= t.ioctls
  }

  lemma SumsStep(t: Tally, e: TraceEvent, n: nat)
    requires Sums(t, n)
    ensures Sums(CountEvent(t, e), n + 1)
  {
    assert TypeName(IOCTL) == "ioctl";
    hide KeyOf, Earlier, Later, TypeName, IoctlName;
    if TypeName(e.kind) == TypeName(IOCTL) { TypeNameInjective(e.kind, IOCTL); }
  }

  /** The histograms each sum to the event count; the ioctl counts sum to the count of the
      ioctl type, and errors are never more than calls. */
  lemma {:induction false} HistogramsSum(es: seq<TraceEvent>)
    ensures var t := TallyOf(es);
      && |t.byType| == |t.byFd| == |t.byThread| == |es|
      && |t.ioctls| == t.byType["ioctl"]
      && t.ioctlErrors <= t.ioctls
  {
    hide CountEvent;
    if es != [] {
      HistogramsSum(es[..|es| - 1]);
      SumsStep(TallyOf(es[..|es| - 1]), es[|es| - 1], |es| - 1);
    }
  }

  /** One entry of one histogram. */
  datatype Entry =
    | Type(kind: nat)
    | Descriptor(fd: int)
    | Thread(tid: int)
    | Ioctls(key: IoctlKey)
    | IoctlErrors(key: IoctlKey)

  predicate Belongs(e: TraceEvent, q: Entry) {
    match q
    case Type(kind) => e.kind == kind
    case Descriptor(fd) => e.fd == fd
    case Thread(tid) => e.tid == tid
    case Ioctls(key) => e.kind == IOCTL && KeyOf(e) == key
    case IoctlErrors(key) => e.kind == IOCTL && KeyOf(e) == key && e.error != 0
  }

  function Shown(t: Tally, q: Entry): nat {
    match q
    case Type(kind) => t.byType[TypeName(kind)]
    case Descriptor(fd) => t.byFd[fd]
    case Thread(tid) => t.byThread[tid]
    case Ioctls(key) => t.ioctls[IoctlName(key)]
    case IoctlErrors(key) => t.ioctlErrors[IoctlName(key)]
  }

  function Positions(es: seq<TraceEvent>, q: Entry): set<nat> {
    set i: nat | i < |es| && Belongs(es[i], q)
  }

  lemma CountedOnce(t: Tally, e: TraceEvent, q: Entry)
    ensures Shown(CountEvent(t, e), q) == Shown(t, q) + if Belongs(e, q) then 1 else 0
  {
    hide TypeName, IoctlName, KeyOf, Earlier, Later;
    match q
    case Type(kind) => if TypeName(e.kind) == TypeName(kind) { TypeNameInjective(e.kind, kind); }
    case Ioctls(key) => if IoctlName(KeyOf(e)) == IoctlName(key) { IoctlNameInjective(KeyOf(e), key); }
    case IoctlErrors(key) => if IoctlName(KeyOf(e)) == IoctlName(key) { IoctlNameInjective(KeyOf(e), key); }
    case _ =>
  }

  lemma PositionsBefore(es: seq<TraceEvent>, q: Entry, i: nat)
    requires es != []
    ensures i in Positions(es[..|es| - 1], q) <==> i in Positions(es, q) && i != |es| - 1
  {
    hide Belongs;
    if i < |es| - 1 { assert es[..|es| - 1][i] == es[i]; }
  }

  lemma PositionsGrow(es: seq<TraceEvent>, q: Entry)
    requires es != []
    ensures |Positions(es, q)| == |Positions(es[..|es| - 1], q)| + if Belongs(es[|es| - 1], q) then 1 else 0
  {
    var n := |es| - 1;
    var all, before := Positions(es, q), Positions(es[..n], q);
    assert n in all <==> Belongs(es[n], q);
    hide *;
    forall i: nat ensures i in before <==> i in all && i != n { PositionsBefore(es, q, i); }
    assert before == all - {n};
  }

  /** Each entry, read under its name, is the number of events it stands for: no two types
      and no two ioctls share a name. */
  lemma {:induction false} EntriesCount(es: seq<TraceEvent>, q: Entry)
    ensures Shown(TallyOf(es), q) == |Positions(es, q)|
  {
    hide CountEvent, Shown, Belongs;
    if es == [] {
      NothingShown(q);
    } else {
      EntriesCount(es[..|es| - 1], q);
      CountedOnce(TallyOf(es[..|es| - 1]), es[|es| - 1], q);
      PositionsGrow(es, q);
    }
  }

  lemma NothingShown(q: Entry)
    ensures Shown(NO_EVENTS, q) == 0
  {
  }

  /** t is the time stamp of one of the events. */
  ghost predicate IsStamp(es: seq<TraceEvent>, t: Option<nat>) {
    t.Some? && exists i | 0 <= i < |es| :: es[i].timestamp == t.value
  }

  ghost predicate Spans(es: seq<TraceEvent>, first: Option<nat>, last: Option<nat>) {
    if es == [] then first.None? && last.None?
    else
      && first.Some? && last.Some?
      && IsStamp(es, first)
      && IsStamp(es, last)
      && forall i | 0 <= i < |es| :: first.value <= es[i].timestamp <= last.value
  }

  lemma StampKept(es: seq<TraceEvent>, t: Option<nat>)
    requires es != [] && (IsStamp(es[..|es| - 1], t) || t == Some(es[|es| - 1].timestamp))
    ensures IsStamp(es, t)
  {
    if IsStamp(es[..|es| - 1], t) {
      var i :| 0 <= i < |es| - 1 && es[..|es| - 1][i].timestamp == t.value;
      assert es[i].timestamp == t.value;
    }
  }

  lemma {:induction false} SpanStep(es: seq<TraceEvent>, first: Option<nat>, last: Option<nat>)
    requires es != [] && Spans(es[..|es| - 1], first, last)
    ensures Spans(es, Earlier(first, es[|es| - 1].timestamp), Later(last, es[|es| - 1].timestamp))
  {
    hide IsStamp;
    var n := |es| - 1;
    assert n == 0 ==> es[..n] == [];
    var ts := es[|es| - 1].timestamp;
    StampKept(es, Earlier(first, ts));
    StampKept(es, Later(last, ts));
    forall i | 0 <= i < |es| ensures Earlier(first, ts).value <= es[i].timestamp <= Later(last, ts).value {
      if i < |es| - 1 { assert es[..|es| - 1][i] == es[i]; }
    }
  }

  /** first and last are the least and the greatest time stamp. */
  lemma {:induction false} TimesBound(es: seq<TraceEvent>)
    ensures Spans(es, TallyOf(es).first, TallyOf(es).last)
  {
    hide Spans, Earlier, Later;
    if es == [] {
      assert Spans(es, None, None) by { NoSpan(); }
    } else {
      TimesBound(es[..|es| - 1]);
      SpanStep(es, TallyOf(es[..|es| - 1]).first, TallyOf(es[..|es| - 1]).last);
    }
  }

  lemma FirstBeforeLast(es: seq<TraceEvent>)
    requires es != []
    ensures TallyOf(es).first.Some? && TallyOf(es).last.Some?
    ensures TallyOf(es).first.value <= TallyOf(es).last.value
  {
    hide TallyOf;
    TimesBound(es);
    assert es[0].timestamp >= 0;
  }

  lemma NoSpan()
    ensures Spans([], None, None)
  {
  }

  datatype Summary =
    | ShortFile
    | InvalidHeader
    | Summary(version: nat, pid: nat, events: nat, dropped: nat, duration: real, tally: Tally)

  const NANOSECONDS: real := 1_000_000_000.0

  /** The seconds from the first to the last event. */
  function Duration(es: seq<TraceEvent>): (s: real)
    ensures s >= 0.0
  {
    TimesBound(es);
    if es == [] then 0.0 else
      FirstBeforeLast(es);
      (TallyOf(es).last.value - TallyOf(es).first.value) as real / NANOSECONDS
  }

  ghost predicate IsSpan(es: seq<TraceEvent>, i: nat, j: nat, length: real) {
    && i < |es| && j < |es|
    && length == (es[j].timestamp - es[i].timestamp) as real
    && forall k | 0 <= k < |es| :: es[i].timestamp <= es[k].timestamp <= es[j].timestamp
  }

  /** In nanoseconds that is the difference between two of the time stamps, none being earlier
      than the one or later than the other. */
  lemma {:induction false} DurationIsSpan(es: seq<TraceEvent>)
    ensures var nanoseconds := Duration(es) * 1_000_000_000.0;
      if es == [] then nanoseconds == 0.0 else exists i: nat, j: nat :: IsSpan(es, i, j, nanoseconds)
  {
    if es != [] {
      TimesBound(es);
      var first, last := TallyOf(es).first, TallyOf(es).last;
      assert Duration(es) == (last.value - first.value) as real / NANOSECONDS;
      hide *;
      var i, j := StampsOf(es, first, last);
      var d := last.value - first.value;
      assert d as real / NANOSECONDS * 1_000_000_000.0 == d as real;
      assert IsSpan(es, i, j, d as real);
    }
  }

  lemma StampsOf(es: seq<TraceEvent>, first: Option<nat>, last: Option<nat>) returns (i: nat, j: nat)
    requires es != [] && Spans(es, first, last)
    ensures first.Some? && last.Some? && IsSpan(es, i, j, (last.value - first.value) as real)
  {
    i :| i < |es| && es[i].timestamp == first.value;
    j :| j < |es| && es[j].timestamp == last.value;
  }

  function Summarize(d: Decoded): Summary {
    match d
    case TooShort => ShortFile
    case BadHeader => InvalidHeader
    case Events(h, es) => Summary(h.version, h.pid, |es|, h.dropped, Duration(es), TallyOf(es))
  }

  lemma SlotBound(length: nat, size: nat, count: nat, i: nat)
    requires i < count && HEADER_SIZE + count * size <= length
    ensures HEADER_SIZE + i * size + size <= length
    ensures (i + 1) * size == i * size + size
  {
    assert (count - (i + 1)) * size >= 0;
  }

  lemma TallyStep(es: seq<TraceEvent>, e: TraceEvent)
    ensures TallyOf(es + [e]) == CountEvent(TallyOf(es), e)
  {
    assert (es + [e])[..|es|] == es;
  }

  /** The loop of the decoder over the event slots. */
  method TallyEvents(data: seq<byte>, size: nat, count: nat) returns (t: Tally)
    requires size >= EVENT_SIZE && HEADER_SIZE + count * size <= |data|
    ensures t == TallyOf(EventsAt(data, size, count))
  {
    hide DecodeEvent, CountEvent, TallyOf;
    t := NO_EVENTS;
    assert t == TallyOf([]) by { NothingTallied(); }
    for i := 0 to count
      invariant HEADER_SIZE + i * size <= |data|
      invariant t == TallyOf(EventsAt(data, size, i))
    {
      SlotBound(|data|, size, count, i);
      var off := HEADER_SIZE + i * size;
      var e := DecodeEvent(data[off..off + EVENT_SIZE]);
      TallyStep(EventsAt(data, size, i), e);
      t := CountEvent(t, e);
    }
  }

  lemma NothingTallied()
    ensures TallyOf([]) == NO_EVENTS
  {
  }

  /** main of the decoder, on the bytes of the file. */
  method DecodeTrace(data: seq<byte>) returns (s: Summary)
    ensures s == Summarize(Decode(data))
  {
    hide DecodeEvent, DecodeHeader, TallyOf, EventsAt, IsStamp;
    if |data| < HEADER_SIZE { return ShortFile; }
    var h := DecodeHeader(data[..HEADER_SIZE]);
    if data[..8] != MAGIC || h.eventSize < EVENT_SIZE { return InvalidHeader; }
    var count := Count(|data|, h);
    var t := TallyEvents(data, h.eventSize, count);
    TimesBound(EventsAt(data, h.eventSize, count));
    if count > 0 { FirstBeforeLast(EventsAt(data, h.eventSize, count)); }
    s := Summary(h.version, h.pid, count, h.dropped,
                 if t.first.None? then 0.0 else (t.last.value - t.first.value) as real / NANOSECONDS, t);
  }

  // -------------------------------------------------------------------- end to end

  /** A sequential run of up to 2^32 recorded events, flushed and decoded: the report gives
      the first events of the log back; its loss count is right exactly when the log fits
      the capacity, and otherwise double. */
  lemma {:induction false} ReportOfLog(log: seq<TraceEvent>, pid: nat)
    requires AllInRange(log) && |log| < WORD && pid < Pow256(4)
    ensures var t := RecordAll(log); var h := FlushHeader(t.dropped, |log|, pid);
      && HeaderInRange(h) && AllInRange(t.stored)
      && Decode(FileOf(h, t.stored)) == Events(h, log[..Min(|log|, CAPACITY)])
      && (h.dropped == |log| - |t.stored| <==> |log| <= CAPACITY)
      && (|log| > CAPACITY ==> h.dropped == 2 * (|log| - |t.stored|))
  {
    hide RecordAll, InRange, FileOf, Decode;
    StoredIsPrefix(log);
    var t := RecordAll(log);
    HeaderFits(t.dropped, |log|, pid);
    WideEnough();
    DecodeFile(FlushHeader(t.dropped, |log|, pid), t.stored);
  }

  lemma WideEnough()
    ensures Pow256(8) > 2 * 0x1_0000_0000
  {
    Powers();
  }

  lemma Powers()
    ensures Pow256(2) == 0x1_0000 && Pow256(4) == 0x1_0000_0000 && Pow256(8) == 0x1_0000_0000_0000_0000
  {
    assert Pow256(4) == 0x1_0000 * Pow256(2);
    assert Pow256(6) == 0x1_0000 * Pow256(4);
    assert Pow256(8) == 0x1_0000 * Pow256(6);
  }

  predicate IsWord(v: int) { 0 <= v < WORD }
  predicate IsLong(v: int) { 0 <= v < FdTracking.LONG }

  /** The arguments and results are in the range of their C types on a 32-bit machine. */
  predicate CallInRange(c: FdTracking.Call, env: FdTracking.Env) {
    && IsLong(env.now) && InInt32(env.tid) && InInt32(env.errno)
    && match c
       case Open(_, _, _, fd) => InInt32(fd)
       case OpenAt(_, _, _, _, fd) => InInt32(fd)
       case Close(fd, r) => InInt32(fd) && InInt32(r)
       case Ioctl(fd, request, arg, r) => InInt32(fd) && IsWord(request) && IsWord(arg) && InInt32(r)
       case Mmap(fd, length, _, _, _, address) => InInt32(fd) && IsWord(length) && IsWord(address)
       case Munmap(address, length, r) => IsWord(address) && IsWord(length) && InInt32(r)
       case Poll(fds, _, r) => IsWord(|fds|) && (forall i | 0 <= i < |fds| :: InInt32(fds[i])) && InInt32(r)
       case PPoll(fds, nanoseconds, r) =>
         IsWord(|fds|) && (forall i | 0 <= i < |fds| :: InInt32(fds[i])) && IsWord(nanoseconds) && InInt32(r)
       case Read(fd, buffer, count, r) => InInt32(fd) && IsWord(buffer) && IsWord(count) && InInt32(r)
       case Write(fd, buffer, count, r) => InInt32(fd) && IsWord(buffer) && IsWord(count) && InInt32(r)
  }

  predicate Bounded(e: TraceEvent) {
    && IsLong(e.timestamp) && IsLong(e.arg) && IsLong(e.aux0) && IsLong(e.aux1)
    && InInt32(e.result) && InInt32(e.fd) && InInt32(e.tid) && InInt32(e.error)
    && e.kind < 0x1_0000 && e.requestNr < 0x1_0000 && e.requestSize < 0x1_0000 && e.flags < 0x1_0000
  }

  lemma {:induction false} BoundedInRange(e: TraceEvent)
    requires Bounded(e)
    ensures InRange(e)
  {
    Powers();
    hide Pow256;
    forall i | 0 <= i < FIELDS ensures FitsOne(EVENT[i], Fields(e)[i]) {
      assert EVENT[i] == if i < 4 then U64 else if i == 4 then I64 else if i < 8 then I32 else U16;
    }
  }

  lemma {:induction false} OfferedIsBounded(c: FdTracking.Call, env: FdTracking.Env)
    requires CallInRange(c, env)
    ensures Bounded(FdTracking.EventOf(c, env))
  {
  }

  lemma {:induction false} RunInRange(cs: seq<(FdTracking.Call, FdTracking.Env)>)
    requires forall i | 0 <= i < |cs| :: CallInRange(cs[i].0, cs[i].1)
    ensures AllInRange(FdTracking.Run(cs).log)
  {
    hide CallInRange, InRange, Bounded, FdTracking.EventOf, FdTracking.Put, FdTracking.Relevant;
    if cs != [] {
      var n := |cs| - 1;
      RunInRange(cs[..n]);
      OfferedIsBounded(cs[n].0, cs[n].1);
      BoundedInRange(FdTracking.EventOf(cs[n].0, cs[n].1));
    }
  }

  /** From the calls of a program to the report: the decoder is given back the first events
      of the log, and what it reads is well bracketed. */
  lemma {:induction false} ReportOfRun(cs: seq<(FdTracking.Call, FdTracking.Env)>, pid: nat)
    requires forall i | 0 <= i < |cs| :: CallInRange(cs[i].0, cs[i].1)
    requires |FdTracking.Run(cs).log| < WORD && pid < Pow256(4)
    ensures var log := FdTracking.Run(cs).log; var t := RecordAll(log);
      var h := FlushHeader(t.dropped, |log|, pid);
      && HeaderInRange(h) && AllInRange(t.stored)
      && Decode(FileOf(h, t.stored)) == Events(h, log[..Min(|log|, CAPACITY)])
      && FdTracking.WellBracketed(log[..Min(|log|, CAPACITY)])
  {
    hide FdTracking.WellBracketed, FdTracking.Run, RecordAll, InRange, Decode, FileOf, HeaderInRange, FlushHeader;
    RunInRange(cs);
    ReportOfLog(FdTracking.Run(cs).log, pid);
    assert FdTracking.AllPossible(cs);
    FdTracking.RunIsWellBracketed(cs);
    StoredIsPrefix(FdTracking.Run(cs).log);
  }

  /** The life of the tracer in a program: from the first call to the flushed file. */
  method TraceProgram(cs: seq<(FdTracking.Call, FdTracking.Env)>, pid: nat) returns (file: seq<byte>)
    requires forall i | 0 <= i < |cs| :: CallInRange(cs[i].0, cs[i].1)
    requires pid < Pow256(4)
    ensures var log := FdTracking.Run(cs).log;
      |log| < WORD ==>
        && Decode(file) == Events(FlushHeader(RecordAll(log).dropped, |log|, pid), log[..Min(|log|, CAPACITY)])
        && FdTracking.WellBracketed(log[..Min(|log|, CAPACITY)])
  {
    hide CallInRange, RecordAll, InRange, Decode, FlushHeader, FileOf, HeaderInRange, FdTracking.Apply,
      FdTracking.WellBracketed, FdTracking.Start;
    var t := new FdTracking.Tracer();
    assert cs[..0] == [];
    for i := 0 to |cs|
      invariant t.Valid() && fresh(t) && fresh(t.tracked) && fresh(t.events)
      invariant t.View() == FdTracking.Run(cs[..i])
    {
      t.Perform(cs[i].0, cs[i].1);
      assert cs[..i + 1][..i] == cs[..i];
    }
    assert cs[..|cs|] == cs;
    RunInRange(cs);
    file := FlushTraceFile(t, pid);
    if |t.log| < WORD {
      CounterBelowWord(t);
      ReportOfRun(cs, pid);
    }
  }

  /** Below 2^32 events the counters of a tracer are those of recording its log. */
  lemma CounterBelowWord(t: FdTracking.Tracer)
    requires t.Valid() && |t.log| < WORD
    ensures t.eventCount == |t.log| && t.dropped == RecordAll(t.log).dropped
  {
    hide RecordAll;
  }

  // ------------------------------------------- the report in terms of the calls

  /** The wrapped function; open64 and openat64 count as open and openat. */
  function CallName(c: FdTracking.Call): string {
    match c
    case Open(_, _, _, _) => "open"
    case OpenAt(_, _, _, _, _) => "openat"
    case Close(_, _) => "close"
    case Ioctl(_, _, _, _) => "ioctl"
    case Mmap(_, _, _, _, _, _) => "mmap"
    case Munmap(_, _, _) => "munmap"
    case Poll(_, _, _) => "poll"
    case PPoll(_, _, _) => "ppoll"
    case Read(_, _, _, _) => "read"
    case Write(_, _, _, _) => "write"
  }

  /** A Linux ioctl request: direction, size of the argument, type and number. */
  function Ioc(direction: nat, key: IoctlKey): nat {
    key.nr + 0x100 * key.magic as nat + 0x1_0000 * key.size + 0x4000_0000 * direction
  }

  ghost predicate IsRequest(request: nat, key: IoctlKey) {
    key.nr < 0x100 && key.size < 0x4000 && exists d: nat | d < 4 :: request == Ioc(d, key)
  }

  /** The entry is about calls like this one. */
  ghost predicate Concerns(c: FdTracking.Call, env: FdTracking.Env, q: Entry) {
    match q
    case Type(kind) => TypeName(kind) == CallName(c)
    case Descriptor(fd) => FdTracking.AboutFd(c) == fd
    case Thread(tid) => env.tid == tid
    case Ioctls(key) => c.Ioctl? && IsRequest(c.request, key)
    case IoctlErrors(key) => c.Ioctl? && IsRequest(c.request, key) && c.r < 0 && env.errno != 0
  }

  lemma LowByte(x: nat, y: nat)
    requires x < 0x100
    ensures ((x + 0x100 * y) % 0x100, (x + 0x100 * y) / 0x100) == (x, y)
  {
  }

  lemma RequestParts(nr: nat, magic: nat, size: nat, direction: nat)
    requires nr < 0x100 && magic < 0x100 && size < 0x4000
    ensures var r := nr + 0x100 * magic + 0x1_0000 * size + 0x4000_0000 * direction;
      (r % 0x100, r / 0x100 % 0x100, r / 0x100 / 0x100 % 0x4000) == (nr, magic, size)
  {
    var upper := size + 0x4000 * direction;
    LowByte(nr, magic + 0x100 * upper);
    LowByte(magic, upper);
    assert upper % 0x4000 == size;
  }

  lemma RequestKey(request: nat, e: TraceEvent, key: IoctlKey)
    requires request == e.requestNr + 0x100 * e.aux0 + 0x1_0000 * e.requestSize + 0x4000_0000 * e.aux1
    requires e.requestNr < 0x100 && e.aux0 < 0x100 && e.requestSize < 0x4000 && e.aux1 < 4
    ensures IsRequest(request, key) <==> KeyOf(e) == key
  {
    RequestParts(e.requestNr, e.aux0, e.requestSize, e.aux1);
    if d: nat :| d < 4 && request == Ioc(d, key) && IsRequest(request, key) {
      RequestParts(key.nr, key.magic as nat, key.size, d);
    }
    if KeyOf(e) == key { assert request == Ioc(e.aux1, key); }
  }

  lemma KindName(c: FdTracking.Call, env: FdTracking.Env, e: TraceEvent)
    requires FdTracking.Tells(e, c, env)
    ensures TypeName(e.kind) == CallName(c)
  {
  }

  lemma {:induction false} TellsOfEntry(c: FdTracking.Call, env: FdTracking.Env, e: TraceEvent, q: Entry)
    requires FdTracking.Tells(e, c, env) && FdTracking.Possible(c)
    ensures Belongs(e, q) <==> Concerns(c, env, q)
  {
    KindName(c, env, e);
    hide TypeName, CallName, KeyOf, IsRequest;
    match q
    case Type(kind) => if TypeName(e.kind) == TypeName(kind) { TypeNameInjective(e.kind, kind); }
    case Ioctls(key) => if c.Ioctl? { RequestKey(c.request, e, key); }
    case IoctlErrors(key) => if c.Ioctl? { RequestKey(c.request, e, key); }
    case _ =>
  }

  /** The recorded calls that the entry is about. */
  ghost function CallsOf(cs: seq<(FdTracking.Call, FdTracking.Env)>, q: Entry): set<nat> {
    set i: nat | i < |cs| && FdTracking.Logs(FdTracking.Run(cs[..i]).tracked, cs[i].0) && Concerns(cs[i].0, cs[i].1, q)
  }

  lemma CallsGrow(cs: seq<(FdTracking.Call, FdTracking.Env)>, q: Entry)
    requires cs != []
    ensures var n := |cs| - 1;
      |CallsOf(cs, q)| == |CallsOf(cs[..n], q)|
        + if FdTracking.Logs(FdTracking.Run(cs[..n]).tracked, cs[n].0) && Concerns(cs[n].0, cs[n].1, q) then 1 else 0
  {
    hide FdTracking.Logs, Concerns, FdTracking.Run;
    var n := |cs| - 1;
    forall i: nat ensures i in CallsOf(cs[..n], q) <==> i in CallsOf(cs, q) && i != n {
      if i < n { assert cs[..n][..i] == cs[..i] && cs[..n][i] == cs[i]; }
    }
    assert CallsOf(cs[..n], q) == CallsOf(cs, q) - {n};
  }

  lemma TallyGrows(es: seq<TraceEvent>, e: TraceEvent, q: Entry)
    ensures Shown(TallyOf(es + [e]), q) == Shown(TallyOf(es), q) + if Belongs(e, q) then 1 else 0
  {
    hide TallyOf, CountEvent, Shown, Belongs;
    TallyStep(es, e);
    CountedOnce(TallyOf(es), e, q);
  }

  /** A call changes the entries it concerns, by one, exactly when it is recorded. */
  lemma {:induction false} CallInTally(s: FdTracking.Tracker, c: FdTracking.Call, env: FdTracking.Env, q: Entry)
    requires FdTracking.Possible(c)
    ensures Shown(TallyOf(FdTracking.Apply(s, c, env).log), q)
         == Shown(TallyOf(s.log), q) + if FdTracking.Logs(s.tracked, c) && Concerns(c, env, q) then 1 else 0
  {
    hide FdTracking.Logs, FdTracking.Tells, FdTracking.Apply, FdTracking.Possible, Concerns, TallyOf, Shown, Belongs;
    FdTracking.CallIsLogged(s, c, env);
    if FdTracking.Logs(s.tracked, c) {
      var log := FdTracking.Apply(s, c, env).log;
      var e := log[|s.log|];
      assert log == s.log + [e];
      TallyGrows(s.log, e, q);
      TellsOfEntry(c, env, e, q);
    }
  }

  /** Each entry of the tally of a run is the number of recorded calls it is about. */
  lemma {:induction false} TallyCountsCalls(cs: seq<(FdTracking.Call, FdTracking.Env)>, q: Entry)
    requires FdTracking.AllPossible(cs)
    ensures Shown(TallyOf(FdTracking.Run(cs).log), q) == |CallsOf(cs, q)|
  {
    if cs == [] {
      NothingShown(q);
    } else {
      hide FdTracking.Logs, FdTracking.Apply, FdTracking.Possible, Concerns, TallyOf, Shown, CallsOf;
      var n := |cs| - 1;
      assert FdTracking.Possible(cs[n].0);
      TallyCountsCalls(cs[..n], q);
      CallsGrow(cs, q);
      CallInTally(FdTracking.Run(cs[..n]), cs[n].0, cs[n].1, q);
    }
  }

  /** Some first part of the calls of a run leaves the first k events of its log. */
  lemma {:induction false} LogPrefixIsRun(cs: seq<(FdTracking.Call, FdTracking.Env)>, k: nat) returns (m: nat)
    requires k <= |FdTracking.Run(cs).log|
    ensures m <= |cs| && FdTracking.Run(cs[..m]).log == FdTracking.Run(cs).log[..k]
    ensures k == |FdTracking.Run(cs).log| ==> m == |cs|
  {
    if k == |FdTracking.Run(cs).log| {
      assert cs[..|cs|] == cs;
      return |cs|;
    }
    hide FdTracking.Logs, FdTracking.Tells, FdTracking.Apply, FdTracking.Start;
    var n := |cs| - 1;
    assert n >= 0 by { NothingLogged(cs); }
    FdTracking.CallIsLogged(FdTracking.Run(cs[..n]), cs[n].0, cs[n].1);
    m := LogPrefixIsRun(cs[..n], k);
    assert cs[..n][..m] == cs[..m];
  }

  lemma NothingLogged(cs: seq<(FdTracking.Call, FdTracking.Env)>)
    ensures cs == [] ==> FdTracking.Run(cs).log == []
  {
  }

  /** From the calls of a program to the figures of the report: each entry is the number of
      recorded calls it is about, among all calls when the log fits the capacity, and else
      among those up to the one that filled it. In particular the errors of an ioctl are its
      recorded calls with a negative result and an errno. */
  lemma {:induction false} ReportCountsCalls(cs: seq<(FdTracking.Call, FdTracking.Env)>, pid: nat) returns (m: nat)
    requires forall i | 0 <= i < |cs| :: CallInRange(cs[i].0, cs[i].1)
    requires |FdTracking.Run(cs).log| < WORD && pid < Pow256(4)
    ensures var log := FdTracking.Run(cs).log; var t := RecordAll(log);
      var h := FlushHeader(t.dropped, |log|, pid);
      && HeaderInRange(h) && AllInRange(t.stored)
      && var report := Summarize(Decode(FileOf(h, t.stored)));
      && m <= |cs| && |FdTracking.Run(cs[..m]).log| == Min(|log|, CAPACITY)
      && (|log| <= CAPACITY ==> m == |cs|)
      && report.Summary? && (report.version, report.pid, report.events) == (1, pid, Min(|log|, CAPACITY))
      && forall q: Entry :: Shown(report.tally, q) == |CallsOf(cs[..m], q)|
  {
    hide FdTracking.WellBracketed, FdTracking.Run, RecordAll, InRange, Decode, FileOf, HeaderInRange, FlushHeader,
      CallInRange, TallyOf, Duration, Shown, CallsOf;
    ReportOfRun(cs, pid);
    var log := FdTracking.Run(cs).log;
    Identified(RecordAll(log).dropped, |log|, pid);
    var k := Min(|log|, CAPACITY);
    m := LogPrefixIsRun(cs, k);
    AllInRangePossible(cs);
    forall q: Entry ensures Shown(TallyOf(log[..k]), q) == |CallsOf(cs[..m], q)| {
      TallyCountsCalls(cs[..m], q);
    }
  }

  lemma Identified(dropped: nat, eventCount: nat, pid: nat)
    ensures var h := FlushHeader(dropped, eventCount, pid); (h.version, h.pid) == (1, pid)
  {
  }

  lemma AllInRangePossible(cs: seq<(FdTracking.Call, FdTracking.Env)>)
    requires forall i | 0 <= i < |cs| :: CallInRange(cs[i].0, cs[i].1)
    ensures FdTracking.AllPossible(cs)
  {
  }

  // ---------------------------------------------------- from the array of the threads

  /** Slot k of the event array has been written and reads as an event. */
  ghost predicate Readable(cells: map<(nat, nat), int>, k: nat) {
    (forall f: nat | f < FIELDS :: (k, f) in cells) && Fits(EVENT, Row(cells, k))
  }

  ghost function Row(cells: map<(nat, nat), int>, k: nat): (v: seq<int>)
    requires forall f: nat | f < FIELDS :: (k, f) in cells
    ensures |v| == FIELDS
  {
    seq(FIELDS, f requires 0 <= f < FIELDS => cells[(k, f)])
  }

  /** The first n slots of the array, as flush_trace_file finds them. */
  ghost function Loaded(cells: map<(nat, nat), int>, n: nat): (es: seq<TraceEvent>)
    requires forall k: nat | k < n :: Readable(cells, k)
    ensures |es| == n
  {
    seq(n, k requires 0 <= k < n && Readable(cells, k) => FromFields(Row(cells, k)))
  }

  lemma {:induction false} HeldIsReadable(cells: map<(nat, nat), int>, k: nat, e: TraceEvent)
    requires MaliTrace.Holds(cells, k, e) && InRange(e)
    ensures Readable(cells, k) && FromFields(Row(cells, k)) == e
  {
    assert Row(cells, k) == Fields(e);
  }

  lemma {:induction false} HeldIsLoaded(cells: map<(nat, nat), int>, es: seq<TraceEvent>)
    requires AllInRange(es) && forall k: nat | k < |es| :: MaliTrace.Holds(cells, k, es[k])
    ensures forall k: nat | k < |es| :: Readable(cells, k)
    ensures Loaded(cells, |es|) == es
  {
    hide MaliTrace.Holds, Row, InRange, FromFields;
    forall k: nat | k < |es| ensures Readable(cells, k) && FromFields(Row(cells, k)) == es[k] {
      assert InRange(es[k]);
      HeldIsReadable(cells, k, es[k]);
    }
  }

  /** After any interleaving of any number of threads, once no call is in progress, the
      file that is flushed from the array decodes to the claimed events in claim order. */
  lemma {:induction false} ReportOfThreads(rs: seq<MaliTrace.State>, ps: seq<MaliTrace.Step>, pid: nat)
    requires MaliTrace.IsRun(rs, ps) && |rs[|ps|].log| < WORD && MaliTrace.Quiescent(rs[|ps|])
    requires AllInRange(MaliTrace.Claimed(rs[|ps|].log)) && pid < Pow256(4)
    ensures var s := rs[|ps|]; var n := Min(s.eventCount, CAPACITY);
      var h := FlushHeader(s.dropped, s.eventCount, pid);
      && s.eventCount == |s.log|
      && HeaderInRange(h)
      && (forall k: nat | k < n :: Readable(s.cells, k))
      && AllInRange(Loaded(s.cells, n))
      && Decode(FileOf(h, Loaded(s.cells, n))) == Events(h, MaliTrace.Claimed(s.log)[..n])
  {
    hide RecordAll, InRange, FileOf, Decode, HeaderInRange, FlushHeader, Readable, Loaded, MaliTrace.Holds,
      MaliTrace.Inv;
    var s := rs[|ps|];
    var log := MaliTrace.Claimed(s.log);
    MaliTrace.QuiescentIsSequential(rs, ps);
    MaliTrace.CounterWraps(rs, ps);
    ReportOfLog(log, pid);
    StoredIsPrefix(log);
    HeldIsLoaded(s.cells, RecordAll(log).stored);
  }

  // ------------------------------------------------- flushing with calls in progress

  /** Slot k as it is found: the array is zeroed at the start. */
  ghost function Found(cells: map<(nat, nat), int>, k: nat): (v: seq<int>)
    ensures |v| == FIELDS
    ensures forall f | 0 <= f < FIELDS :: v[f] == if (k, f) in cells then cells[(k, f)] else 0
  {
    seq(FIELDS, f requires 0 <= f < FIELDS => if (k, f) in cells then cells[(k, f)] else 0)
  }

  /** The first n fields of the event, zeros for the others. */
  function FirstFields(e: TraceEvent, n: nat): (v: seq<int>)
    ensures |v| == FIELDS
    ensures forall f | 0 <= f < FIELDS :: v[f] == if f < n then Fields(e)[f] else 0
  {
    seq(FIELDS, f requires 0 <= f < FIELDS => if f < n then Fields(e)[f] else 0)
  }

  lemma {:induction false} FirstFieldsFit(e: TraceEvent, n: nat)
    requires InRange(e)
    ensures Fits(EVENT, FirstFields(e, n))
    ensures n >= FIELDS ==> FromFields(FirstFields(e, n)) == e
  {
    Powers();
    hide Pow256;
    forall i | 0 <= i < FIELDS ensures FitsOne(EVENT[i], FirstFields(e, n)[i]) {
      assert EVENT[i] == if i < 4 then U64 else if i == 4 then I64 else if i < 8 then I32 else U16;
      assert FitsOne(EVENT[i], Fields(e)[i]);
    }
    if n >= FIELDS { assert FirstFields(e, n) == Fields(e); }
  }

  /** What a partly stored event reads as. */
  function StoredPart(e: TraceEvent, n: nat): TraceEvent
    requires InRange(e)
  {
    FirstFieldsFit(e, n);
    FromFields(FirstFields(e, n))
  }

  lemma {:induction false} StoredPartInRange(e: TraceEvent, n: nat)
    requires InRange(e)
    ensures InRange(StoredPart(e, n)) && Fields(StoredPart(e, n)) == FirstFields(e, n)
    ensures n >= FIELDS ==> StoredPart(e, n) == e
  {
    FirstFieldsFit(e, n);
    assert Fields(FromFields(FirstFields(e, n))) == FirstFields(e, n);
  }

  ghost predicate CanLoad(cells: map<(nat, nat), int>, n: nat) {
    forall k: nat | k < n :: Fits(EVENT, Found(cells, k))
  }

  /** The first n slots as they are found. */
  ghost function Snapshot(cells: map<(nat, nat), int>, n: nat): (es: seq<TraceEvent>)
    requires CanLoad(cells, n)
    ensures |es| == n
  {
    seq(n, k requires 0 <= k < n && Fits(EVENT, Found(cells, k)) => FromFields(Found(cells, k)))
  }

  lemma {:induction false} FoundIsFirstFields(cells: map<(nat, nat), int>, k: nat, e: TraceEvent, n: nat)
    requires MaliTrace.HoldsFirst(cells, k, e, n)
    ensures Found(cells, k) == FirstFields(e, n)
  {
    hide Fields;
    forall f | 0 <= f < FIELDS ensures Found(cells, k)[f] == FirstFields(e, n)[f] {
      var g: nat := f;
      assert (k, g) in cells <==> g < n;
    }
  }

  /** The event e is what a flush at this moment finds in slot k: the claimed event wherever that
      was completely stored, and otherwise its fields as far as its thread, which is still
      inside the call, has come. */
  ghost predicate SlotMatches(s: MaliTrace.State, k: nat, e: TraceEvent)
    requires k < |s.log|
  {
    var c := s.log[k];
    && InRange(e) && InRange(c.event)
    && e == StoredPart(c.event, c.done)
    && if c.done == FIELDS then e == c.event else c.thread in s.calls && s.calls[c.thread].slot == k
  }

  ghost predicate SnapshotMatches(s: MaliTrace.State, es: seq<TraceEvent>)
    requires |es| <= |s.log|
  {
    forall k | 0 <= k < |es| :: SlotMatches(s, k, es[k])
  }

  lemma {:induction false} SnapshotHolds(rs: seq<MaliTrace.State>, ps: seq<MaliTrace.Step>, n: nat)
    requires MaliTrace.IsRun(rs, ps) && |rs[|ps|].log| < WORD && n <= Min(|rs[|ps|].log|, CAPACITY)
    requires AllInRange(MaliTrace.Claimed(rs[|ps|].log))
    ensures var s := rs[|ps|];
      CanLoad(s.cells, n) && SnapshotMatches(s, Snapshot(s.cells, n)) && AllInRange(Snapshot(s.cells, n))
  {
    var s := rs[|ps|];
    hide InRange, FromFields, Found, Fields, MaliTrace.HoldsFirst, MaliTrace.IsRun;
    forall k: nat | k < n
      ensures Fits(EVENT, Found(s.cells, k)) && SlotMatches(s, k, FromFields(Found(s.cells, k)))
    {
      var c := s.log[k];
      assert InRange(MaliTrace.Claimed(s.log)[k]);
      MaliTrace.StoredSoFar(rs, ps, k);
      FoundIsFirstFields(s.cells, k, c.event, c.done);
      FirstFieldsFit(c.event, c.done);
      StoredPartInRange(c.event, c.done);
    }
    var es := Snapshot(s.cells, n);
    forall k | 0 <= k < n ensures InRange(es[k]) { MatchInRange(s, k, es[k]); }
  }

  lemma MatchInRange(s: MaliTrace.State, k: nat, e: TraceEvent)
    requires k < |s.log| && SlotMatches(s, k, e)
    ensures InRange(e)
  {
  }

  /** A flush at any moment of any interleaving, as from the signal handler: the decoder gives
      back one event for every claim below the capacity, each as far as it was stored. */
  lemma {:induction false} ReportOfSignal(rs: seq<MaliTrace.State>, ps: seq<MaliTrace.Step>, pid: nat)
    requires MaliTrace.IsRun(rs, ps) && |rs[|ps|].log| < WORD && pid < Pow256(4)
    requires AllInRange(MaliTrace.Claimed(rs[|ps|].log))
    ensures var s := rs[|ps|]; var n := Min(s.eventCount, CAPACITY);
      var h := FlushHeader(s.dropped, s.eventCount, pid);
      && n == Min(|s.log|, CAPACITY)
      && HeaderInRange(h) && CanLoad(s.cells, n)
      && SnapshotMatches(s, Snapshot(s.cells, n)) && AllInRange(Snapshot(s.cells, n))
      && Decode(FileOf(h, Snapshot(s.cells, n))) == Events(h, Snapshot(s.cells, n))
  {
    var s := rs[|ps|];
    var n := Min(|s.log|, CAPACITY);
    assert s.eventCount == |s.log| by { MaliTrace.CounterWraps(rs, ps); }
    HeaderFits(s.dropped, s.eventCount, pid);
    hide InRange, AllInRange, CanLoad, SnapshotMatches, Snapshot, Decode, FileOf, HeaderInRange, MaliTrace.IsRun;
    SnapshotHolds(rs, ps, n);
    DecodeFile(FlushHeader(s.dropped, s.eventCount, pid), Snapshot(s.cells, n));
  }
}
