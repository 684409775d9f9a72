/** The GPU property records of the kbase probe and their parser
    (tools/kbase_probe/kbase_probe.c; record format in docs/KBASE_UAPI_NOTES.md). */
module KbaseProps {
  import opened Common
  import opened LittleEndian

  const MAX_PROPS: nat := 16384
  const MAX_RECORDS: nat := 256

  /** kind is the value size code: 0, 1, 2, 3 for one, two, four, eight bytes. */
  datatype Property = Property(id: nat, kind: nat, value: nat)

  function Width(kind: nat): (n: nat)
    ensures n > 0
  {
    if kind == 0 then 1 else if kind == 1 then 2 else if kind == 2 then 4 else 8
  }

  predicate WellFormed(p: Property) {
    p.id < 0x4000_0000 && p.kind < 4 && p.value < Pow256(Width(p.kind))
  }

  // ------------------------------------------------------------------ the format

  function EncodeProperty(p: Property): (s: seq<byte>)
    ensures |s| == 4 + Width(p.kind)
  {
    Encode(4, 4 * p.id + p.kind) + Encode(Width(p.kind), p.value)
  }

  function EncodeAll(ps: seq<Property>): (s: seq<byte>)
    ensures |s| >= 5 * |ps|
  {
    if ps == [] then [] else EncodeProperty(ps[0]) + EncodeAll(ps[1..])
  }

  ghost predicate AllWellFormed(ps: seq<Property>) {
    forall i | 0 <= i < |ps| :: WellFormed(ps[i])
  }

  // ------------------------------------------------------------------ the parser

  function Rd16(s: seq<byte>, at: nat): nat
    requires at + 2 <= |s|
  {
    s[at] as int + 256 * s[at + 1] as int
  }

  function Rd32(s: seq<byte>, at: nat): nat
    requires at + 4 <= |s|
  {
    Rd16(s, at) + 0x1_0000 * Rd16(s, at + 2)
  }

  function Rd64(s: seq<byte>, at: nat): nat
    requires at + 8 <= |s|
  {
    Rd32(s, at) + 0x1_0000_0000 * Rd32(s, at + 4)
  }

  function ReadValue(s: seq<byte>, at: nat, kind: nat): nat
    requires at + Width(kind) <= |s|
  {
    if kind == 0 then s[at] else if kind == 1 then Rd16(s, at) else if kind == 2 then Rd32(s, at) else Rd64(s, at)
  }

  lemma {:induction false} Rd16IsDecode(s: seq<byte>, at: nat)
    requires at + 2 <= |s|
    ensures Rd16(s, at) == Decode(s[at..at + 2])
  {
    var t := s[at..at + 2];
    assert t[1..][1..] == [];
    assert Decode(t[1..]) == t[1] as int + 256 * Decode(t[1..][1..]);
  }

  lemma {:induction false} Rd32IsDecode(s: seq<byte>, at: nat)
    requires at + 4 <= |s|
    ensures Rd32(s, at) == Decode(s[at..at + 4])
  {
    Rd16IsDecode(s, at);
    Rd16IsDecode(s, at + 2);
    DecodeConcat(s[at..at + 2], s[at + 2..at + 4]);
    assert s[at..at + 2] + s[at + 2..at + 4] == s[at..at + 4];
    assert Pow256(2) == 0x1_0000;
  }

  lemma {:induction false} Rd64IsDecode(s: seq<byte>, at: nat)
    requires at + 8 <= |s|
    ensures Rd64(s, at) == Decode(s[at..at + 8])
  {
    Rd32IsDecode(s, at);
    Rd32IsDecode(s, at + 4);
    DecodeConcat(s[at..at + 4], s[at + 4..at + 8]);
    assert s[at..at + 4] + s[at + 4..at + 8] == s[at..at + 8];
    assert Pow256(2) == 0x1_0000 && Pow256(4) == 0x1_0000_0000;
  }

  lemma {:induction false} ReadValueIsDecode(s: seq<byte>, at: nat, kind: nat)
    requires at + Width(kind) <= |s|
    ensures ReadValue(s, at, kind) == Decode(s[at..at + Width(kind)])
  {
    if kind == 0 {
      assert s[at..at + 1][1..] == [];
    } else if kind == 1 {
      Rd16IsDecode(s, at);
    } else if kind == 2 {
      Rd32IsDecode(s, at);
    } else {
      Rd64IsDecode(s, at);
    }
  }

  /** The records decoded, the bytes consumed and the final value of the record counter. */
  datatype Parsed = Parsed(records: seq<Property>, off: nat, count: nat)

  function Kind(s: seq<byte>): (k: nat)
    requires 4 <= |s|
    ensures k < 4
  {
    Rd32(s, 0) % 4
  }

  /** A whole record is at the front of the bytes. */
  predicate HasRecord(s: seq<byte>) {
    4 <= |s| && 4 + Width(Kind(s)) <= |s|
  }

  function FirstRecord(s: seq<byte>): Property
    requires HasRecord(s)
  {
    Property(Rd32(s, 0) / 4, Kind(s), ReadValue(s, 4, Kind(s)))
  }

  function AfterRecord(s: seq<byte>): (t: seq<byte>)
    requires HasRecord(s)
    ensures |t| < |s|
  {
    s[4 + Width(Kind(s))..]
  }

  function ParseFrom(s: seq<byte>, count: nat): (r: Parsed) {
    if |s| < 4 then Parsed([], 0, count)
    else if count >= MAX_RECORDS then Parsed([], 0, count + 1)
    else if !HasRecord(s) then Parsed([], 4, count + 1)
    else
      var rest := ParseFrom(AfterRecord(s), count + 1);
      Parsed([FirstRecord(s)] + rest.records, 4 + Width(Kind(s)) + rest.off, rest.count)
  }

  function Parse(s: seq<byte>): Parsed { ParseFrom(s, 0) }

  /** What the loop has produced so far followed by what the rest yields. */
  function Resume(records: seq<Property>, off: nat, rest: Parsed): Parsed {
    Parsed(records + rest.records, off + rest.off, rest.count)
  }

  lemma {:induction false} ResumeStep(s: seq<byte>, records: seq<Property>, off: nat, count: nat)
    requires off <= |s| && HasRecord(s[off..]) && count < MAX_RECORDS
    ensures var t := s[off..];
      var next := off + 4 + Width(Kind(t));
      && next <= |s|
      && Resume(records, off, ParseFrom(t, count))
      == Resume(records + [FirstRecord(t)], next, ParseFrom(s[next..], count + 1))
  {
    hide FirstRecord, Kind;
    var t := s[off..];
    assert AfterRecord(t) == s[off + 4 + Width(Kind(t))..];
    var rest := ParseFrom(AfterRecord(t), count + 1);
    assert records + ([FirstRecord(t)] + rest.records) == records + [FirstRecord(t)] + rest.records;
  }

  /** The parsing loop of dump_props; every read is inside the buffer. The caller never
      passes more than MAX_PROPS bytes. */
  method DumpProps(buf: array<byte>, size: nat) returns (records: seq<Property>, off: nat, count: nat)
    requires size <= buf.Length && size <= MAX_PROPS
    ensures Parsed(records, off, count) == Parse(buf[..size])
    ensures off <= size
  {
    hide Rd32, ReadValue, ParseFrom;
    ghost var s := buf[..size];
    records, off, count := [], 0, 0;
    assert s[0..] == s && Parse(s) == Resume([], 0, Parse(s));
    while off + 4 <= size && count < MAX_RECORDS
      invariant off <= size && count <= MAX_RECORDS
      invariant Parse(s) == Resume(records, off, ParseFrom(s[off..], count))
      decreases size - off
    {
      ghost var t := s[off..];
      assert buf[off..size] == t;
      var key := Rd32(buf[off..size], 0);
      var id, kind := key / 4, key % 4;
      var bytes := Width(kind);
      if off + 4 + bytes > size {
        ParseEnds(t, count);
        count := count + 1;
        off := off + 4;
        return;
      }
      ResumeStep(s, records, off, count);
      count := count + 1;
      var value := ReadValue(buf[off..size], 4, kind);
      records := records + [Property(id, kind, value)];
      off := off + 4 + bytes;
    }
    ParseEnds(s[off..], count);
    if off + 4 <= size { count := count + 1; }
  }

  /** Where the loop stops, only the offset and the counter still change. */
  lemma ParseEnds(s: seq<byte>, count: nat)
    requires count >= MAX_RECORDS || !HasRecord(s)
    ensures ParseFrom(s, count) == Parsed([], if count < MAX_RECORDS && |s| >= 4 then 4 else 0,
                                          if |s| >= 4 then count + 1 else count)
  {
  }

  // -------------------------------------------------- what the parser computes

  lemma {:induction false} KeySplit(p: Property)
    requires WellFormed(p)
    ensures 4 * p.id + p.kind < Pow256(4)
    ensures (4 * p.id + p.kind) / 4 == p.id && (4 * p.id + p.kind) % 4 == p.kind
  {
    assert Pow256(2) == 0x1_0000 && Pow256(4) == 0x1_0000_0000;
  }

  /** A record read from the buffer is well formed and encodes to the bytes it was read
      from. */
  lemma {:induction false} RecordReencodes(s: seq<byte>)
    requires HasRecord(s)
    ensures WellFormed(FirstRecord(s)) && FirstRecord(s).kind == Kind(s)
    ensures s == EncodeProperty(FirstRecord(s)) + AfterRecord(s)
  {
    hide Rd32, ReadValue;
    var p := FirstRecord(s);
    var key, value := s[0..4], s[4..4 + Width(p.kind)];
    Rd32IsDecode(s, 0);
    ReadValueIsDecode(s, 4, p.kind);
    EncodeDecode(key);
    EncodeDecode(value);
    assert Pow256(2) == 0x1_0000 && Pow256(4) == 0x1_0000_0000;
    assert s == key + value + AfterRecord(s);
  }

  /** Conversely bytes that start with an encoded property are read back as it. */
  lemma {:induction false} RecordReadsBack(p: Property, t: seq<byte>)
    requires WellFormed(p)
    ensures var s := EncodeProperty(p) + t;
      HasRecord(s) && FirstRecord(s) == p && AfterRecord(s) == t
  {
    var s := EncodeProperty(p) + t;
    var key, value := s[0..4], s[4..4 + Width(p.kind)];
    assert key == Encode(4, 4 * p.id + p.kind) && value == Encode(Width(p.kind), p.value);
    KeySplit(p);
    DecodeEncode(4, 4 * p.id + p.kind);
    DecodeEncode(Width(p.kind), p.value);
    Rd32IsDecode(s, 0);
    ReadValueIsDecode(s, 4, p.kind);
  }

  /** On arbitrary bytes: the decoded records, encoded again, are the bytes they were read
      from. The counter exceeds the number of records by one exactly when four or more
      bytes were left over. */
  lemma {:induction false} ParsedReencodes(s: seq<byte>, count: nat) returns (rest: seq<byte>)
    requires count <= MAX_RECORDS
    ensures var r := ParseFrom(s, count);
      && AllWellFormed(r.records)
      && count + |r.records| <= MAX_RECORDS
      && s == EncodeAll(r.records) + rest
      && r.count == count + |r.records| + (if |rest| >= 4 then 1 else 0)
      && (|rest| < 4 ==> r.off == |EncodeAll(r.records)|)
    decreases |s|
  {
    hide EncodeProperty, FirstRecord, AfterRecord, Kind, WellFormed;
    rest := s;
    if count < MAX_RECORDS && HasRecord(s) {
      var p, t := FirstRecord(s), AfterRecord(s);
      RecordReencodes(s);
      rest := ParsedReencodes(t, count + 1);
      var ps := ParseFrom(t, count + 1).records;
      assert ([p] + ps)[1..] == ps;
      assert EncodeProperty(p) + (EncodeAll(ps) + rest) == EncodeAll([p] + ps) + rest;
    }
  }

  /** The decoded list is the longest one: any list whose encoding starts the buffer agrees
      with it, up to the record limit. */
  lemma {:induction false} ParsedIsLongest(ps: seq<Property>, rest: seq<byte>, count: nat)
    requires count <= MAX_RECORDS && AllWellFormed(ps)
    ensures ps[..Min(|ps|, MAX_RECORDS - count)] <= ParseFrom(EncodeAll(ps) + rest, count).records
  {
    hide EncodeProperty, HasRecord, FirstRecord, AfterRecord, Kind, WellFormed;
    if ps != [] && count < MAX_RECORDS {
      var t := EncodeAll(ps[1..]) + rest;
      assert EncodeAll(ps) + rest == EncodeProperty(ps[0]) + t;
      RecordReadsBack(ps[0], t);
      ParsedIsLongest(ps[1..], rest, count + 1);
      var n := Min(|ps|, MAX_RECORDS - count);
      assert ps[..n] == [ps[0]] + ps[1..][..n - 1];
    }
  }

  lemma {:induction false} EncodeAppend(ps: seq<Property>, qs: seq<Property>)
    ensures EncodeAll(ps + qs) == EncodeAll(ps) + EncodeAll(qs)
  {
    if ps == [] {
      assert ps + qs == qs;
    } else {
      assert (ps + qs)[1..] == ps[1..] + qs;
      EncodeAppend(ps[1..], qs);
    }
  }

  /** Parsing inverts encoding, up to the record limit. */
  lemma {:induction false} ParseEncode(ps: seq<Property>)
    requires AllWellFormed(ps)
    ensures Parse(EncodeAll(ps)).records == ps[..Min(|ps|, MAX_RECORDS)]
  {
    hide ParseFrom, AllWellFormed;
    var s := EncodeAll(ps);
    assert s + [] == s;
    ParsedIsLongest(ps, [], 0);
    var rest := ParsedReencodes(s, 0);
    var rs := Parse(s).records;
    if |ps| <= MAX_RECORDS {
      assert ps == ps[..|ps|];
      EncodeAppend(ps, rs[|ps|..]);
      assert ps + rs[|ps|..] == rs;
    }
  }

  /** The records of a truncated buffer are a prefix of those of the whole buffer. */
  lemma {:induction false} ParseTruncated(s: seq<byte>, k: nat)
    requires k <= |s|
    ensures Parse(s[..k]).records <= Parse(s).records
  {
    hide EncodeAll, ParseFrom, AllWellFormed;
    var rest := ParsedReencodes(s[..k], 0);
    var ps := Parse(s[..k]).records;
    ParsedIsLongest(ps, rest + s[k..], 0);
    assert ps[..|ps|] == ps;
    assert s == s[..k] + s[k..] == EncodeAll(ps) + (rest + s[k..]);
  }

  /** A complete payload of at most 256 records is consumed exactly. */
  lemma {:induction false} CompletePayloadConsumed(ps: seq<Property>)
    requires AllWellFormed(ps) && |ps| <= MAX_RECORDS
    ensures Parse(EncodeAll(ps)) == Parsed(ps, |EncodeAll(ps)|, |ps|)
  {
    ParseEncode(ps);
    assert ps[..|ps|] == ps;
    var rest := ParsedReencodes(EncodeAll(ps), 0);
  }
}
