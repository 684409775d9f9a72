/** One record of the mali tracer (tools/mali_trace/mali_trace.c). */
module TraceEvents {
  import opened Common

  const CAPACITY: nat := 65536
  const FIELDS: nat := 12

  const OPEN: nat := 1
  const OPENAT: nat := 2
  const CLOSE: nat := 3
  const IOCTL: nat := 4
  const MMAP: nat := 5
  const MUNMAP: nat := 6
  const POLL: nat := 7
  const PPOLL: nat := 8
  const READ: nat := 9
  const WRITE: nat := 10

  datatype TraceEvent = TraceEvent(
    timestamp: nat, arg: nat, aux0: nat, aux1: nat, result: int,
    fd: int, tid: int, error: int, kind: nat, requestNr: nat, requestSize: nat, flags: nat)

  /** A slot of the zeroed array. */
  const BLANK := TraceEvent(0, 0, 0, 0, 0, 0, 0, 0, 0, 0, 0, 0)

  /** The fields in the order record_event stores them. */
  function Fields(e: TraceEvent): (s: seq<int>)
    ensures |s| == FIELDS
  {
    [e.timestamp, e.arg, e.aux0, e.aux1, e.result, e.fd, e.tid, e.error, e.kind,
     e.requestNr, e.requestSize, e.flags]
  }

  /** What the file keeps when events are recorded one after another. */
  datatype Trace = Trace(stored: seq<TraceEvent>, dropped: nat)

  function Record(t: Trace, e: TraceEvent): Trace {
    if |t.stored| < CAPACITY then t.(stored := t.stored + [e]) else t.(dropped := t.dropped + 1)
  }

  function RecordAll(es: seq<TraceEvent>): Trace {
    if es == [] then Trace([], 0) else Record(RecordAll(es[..|es| - 1]), es[|es| - 1])
  }

  lemma RecordStep(es: seq<TraceEvent>, e: TraceEvent)
    ensures RecordAll(es + [e]) == Record(RecordAll(es), e)
  {
    assert (es + [e])[..|es|] == es;
  }

  /** Overflow loses a suffix: what is stored is a prefix, and nothing is uncounted. */
  lemma {:induction false} StoredIsPrefix(es: seq<TraceEvent>)
    ensures var t := RecordAll(es); (t.stored, |t.stored| + t.dropped) == (es[..Min(|es|, CAPACITY)], |es|)
  {
    if es != [] {
      var n := |es| - 1;
      StoredIsPrefix(es[..n]);
      if n < CAPACITY {
        assert es[..n][..n] == es[..n] && es[..n] + [es[n]] == es && es[..n + 1] == es;
      } else {
        assert es[..n][..CAPACITY] == es[..CAPACITY];
      }
    }
  }
}
