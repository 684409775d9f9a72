/** Which descriptors the mali tracer follows, and what a sequential run of calls leaves in
    the trace (tools/mali_trace/mali_trace.c). The results of the real calls are inputs. */
module FdTracking {
  import opened Common
  import opened TraceEvents

  const MAX_TRACKED_FDS: nat := 4096
  const KBASE_HWCNT_SETUP: nat := 0x40148008
  const LONG: nat := 0x1_0000_0000_0000_0000
  const MAP_FAILED: nat := 0xffff_ffff

  /** `log` is history: the events that passed the guard of record_event, stored or not. */
  datatype Tracker = Tracker(tracked: seq<bool>, log: seq<TraceEvent>)

  /** The clock, the calling thread and errno after the real call. */
  datatype Env = Env(now: nat, tid: int, errno: int)

  /** A call and the answer of the real one. Pointers and requests are 32-bit. */
  datatype Call =
    | Open(mali: bool, flags: int, wide: bool, fd: int)
    | OpenAt(mali: bool, dirfd: int, flags: int, wide: bool, fd: int)
    | Close(fd: int, r: int)
    | Ioctl(fd: int, request: nat, arg: nat, r: int)
    | Mmap(fd: int, length: nat, offset: int, prot: nat, sharing: nat, address: nat)
    | Munmap(address: nat, length: nat, r: int)
    | Poll(fds: seq<int>, timeout: int, r: int)
    | PPoll(fds: seq<int>, nanoseconds: nat, r: int)
    | Read(fd: int, buffer: nat, count: nat, r: int)
    | Write(fd: int, buffer: nat, count: nat, r: int)

  // -------------------------------------------------------------- recorded events

  /** Conversion of a signed value to uint64_t. */
  function Unsigned64(v: int): nat { v % LONG }

  function Signed32(p: nat): int { if p % WORD >= WORD / 2 then p % WORD - WORD else p % WORD }

  function Errno(r: int, errno: int): int { if r < 0 then errno else 0 }

  /** Bitwise or. */
  function Or(a: nat, b: nat): nat {
    if a == 0 && b == 0 then 0 else Or(a / 2, b / 2) * 2 + if a % 2 == 1 || b % 2 == 1 then 1 else 0
  }

  function Exp2(k: nat): (n: nat)
    ensures n > 0
  {
    if k == 0 then 1 else 2 * Exp2(k - 1)
  }

  lemma {:induction false} OrZero(b: nat)
    ensures Or(0, b) == b
  {
    if b > 0 { OrZero(b / 2); }
  }

  lemma {:induction false} OrFits(a: nat, b: nat, k: nat)
    requires a < Exp2(k) && b < Exp2(k)
    ensures Or(a, b) < Exp2(k)
  {
    if k > 0 { OrFits(a / 2, b / 2, k - 1); }
  }

  /** Values without a common bit. */
  lemma {:induction false} OrApart(a: nat, c: nat, k: nat)
    requires a < Exp2(k)
    ensures Or(a, c * Exp2(k)) == a + c * Exp2(k)
  {
    if k == 0 {
      OrZero(c);
    } else {
      var b := c * Exp2(k - 1);
      assert c * Exp2(k) == 2 * b;
      OrApart(a / 2, c, k - 1);
    }
  }

  lemma Sixteen()
    ensures Exp2(16) == 0x1_0000 && Exp2(8) == 0x100
  {
    assert Exp2(4) == 16;
    assert Exp2(8) == 16 * Exp2(4);
    assert Exp2(12) == 16 * Exp2(8);
  }

  /** The low byte of the mapping flags above the protection bits, cut to 16 bits. */
  function MapBits(prot: nat, sharing: nat): (bits: nat)
    ensures bits < 0x1_0000
  {
    Sixteen();
    OrFits(prot % 0x1_0000, sharing * 0x100 % 0x1_0000, 16);
    Or(prot % 0x1_0000, sharing * 0x100 % 0x1_0000)
  }

  lemma MapBitsApart(prot: nat, sharing: nat)
    requires prot < 0x100
    ensures MapBits(prot, sharing) == prot + 0x100 * (sharing % 0x100)
  {
    hide Or, Exp2;
    Sixteen();
    OrApart(prot, sharing % 0x100, 8);
    assert sharing * 0x100 % 0x1_0000 == sharing % 0x100 * 0x100;
  }

  /** What record_event stores: of the request only its number and size. */
  function Event(env: Env, kind: nat, fd: int, request: nat, arg: nat, aux0: nat, aux1: nat,
                 result: int, error: int, flags: nat): TraceEvent {
    TraceEvent(env.now, arg, aux0, aux1, result, fd, env.tid, error, kind,
               request % 0x100, request / 0x1_0000 % 0x4000, flags)
  }

  function IoctlEvent(env: Env, fd: int, request: nat, arg: nat, r: int): TraceEvent {
    Event(env, IOCTL, fd, request, arg, request / 0x100 % 0x100, request / 0x4000_0000 % 4, r, Errno(r, env.errno), 0)
  }

  /** The event a call offers to record_event. */
  function EventOf(c: Call, env: Env): TraceEvent {
    match c
    case Open(_, flags, wide, fd) =>
      Event(env, OPEN, fd, 0, 0, Unsigned64(flags), if wide then 64 else 0, fd, env.errno, 0)
    case OpenAt(_, dirfd, flags, wide, fd) =>
      Event(env, OPENAT, fd, 0, 0, dirfd % WORD, Unsigned64(flags), fd, env.errno, if wide then 64 else 0)
    case Close(fd, r) => Event(env, CLOSE, fd, 0, 0, 0, 0, r, Errno(r, env.errno), 0)
    case Ioctl(fd, request, arg, r) => IoctlEvent(env, fd, request, arg, r)
    case Mmap(fd, length, offset, prot, sharing, p) =>
      Event(env, MMAP, fd, 0, p, length, Unsigned64(offset), Signed32(p),
            if p == MAP_FAILED then env.errno else 0, MapBits(prot, sharing))
    case Munmap(p, length, r) => Event(env, MUNMAP, -1, 0, p, length, 0, r, Errno(r, env.errno), 0)
    case Poll(fds, timeout, r) =>
      Event(env, POLL, if fds == [] then -1 else fds[0], 0, |fds|, Unsigned64(timeout), 0, r, Errno(r, env.errno), 0)
    case PPoll(fds, nanoseconds, r) =>
      Event(env, PPOLL, if fds == [] then -1 else fds[0], 0, |fds|, nanoseconds, 0, r, Errno(r, env.errno), 0)
    case Read(fd, buffer, count, r) => Event(env, READ, fd, 0, buffer, count, 0, r, Errno(r, env.errno), 0)
    case Write(fd, buffer, count, r) => Event(env, WRITE, fd, 0, buffer, count, 0, r, Errno(r, env.errno), 0)
  }

  /** The identity of an ioctl survives: its four recorded parts give the request back. */
  lemma RequestFromEvent(env: Env, fd: int, request: nat, arg: nat, r: int)
    requires request < WORD
    ensures var e := IoctlEvent(env, fd, request, arg, r);
      request == e.requestNr + 0x100 * e.aux0 + 0x1_0000 * e.requestSize + 0x4000_0000 * e.aux1
  {
    assert request / 0x1_0000 == request / 0x1_0000 % 0x4000 + 0x4000 * (request / 0x1_0000 / 0x4000);
    assert request / 0x1_0000 / 0x4000 == request / 0x4000_0000;
    assert request / 0x100 / 0x100 == request / 0x1_0000;
  }

  // -------------------------------------------------------------- specification

  predicate IsTracked(tracked: seq<bool>, fd: int) {
    0 <= fd < |tracked| && tracked[fd]
  }

  function Put(tracked: seq<bool>, fd: int, on: bool): (t: seq<bool>)
    ensures |t| == |tracked|
  {
    if 0 <= fd < |tracked| then tracked[fd := on] else tracked
  }

  predicate IsOpen(e: TraceEvent) { e.kind == OPEN || e.kind == OPENAT }

  function Recorded(s: Tracker, e: TraceEvent): Tracker {
    if !IsTracked(s.tracked, e.fd) && !IsOpen(e) then s else s.(log := s.log + [e])
  }

  /** poll and ppoll offer an event when any descriptor in the list is tracked. */
  predicate Relevant(tracked: seq<bool>, fds: seq<int>) {
    exists i | 0 <= i < |fds| :: IsTracked(tracked, fds[i])
  }

  lemma RelevantStep(tracked: seq<bool>, fds: seq<int>, fd: int)
    ensures Relevant(tracked, fds + [fd]) <==> Relevant(tracked, fds) || IsTracked(tracked, fd)
  {
    assert (fds + [fd])[|fds|] == fd;
    forall i | 0 <= i < |fds| ensures (fds + [fd])[i] == fds[i] {}
  }

  function Apply(s: Tracker, c: Call, env: Env): Tracker {
    var e := EventOf(c, env);
    match c
    case Open(mali, _, _, fd) => if mali then Recorded(s.(tracked := Put(s.tracked, fd, true)), e) else s
    case OpenAt(mali, _, _, _, fd) => if mali then Recorded(s.(tracked := Put(s.tracked, fd, true)), e) else s
    case Close(fd, _) =>
      if !IsTracked(s.tracked, fd) then s
      else
        var t := Recorded(s, e);
        t.(tracked := Put(t.tracked, fd, false))
    case Ioctl(fd, request, _, r) =>
      if !IsTracked(s.tracked, fd) then s
      else
        var t := Recorded(s, e);
        if request == KBASE_HWCNT_SETUP && r >= 0 then t.(tracked := Put(t.tracked, r, true)) else t
    case Mmap(fd, _, _, _, _, _) => if IsTracked(s.tracked, fd) then Recorded(s, e) else s
    case Munmap(_, _, _) => Recorded(s, e)
    case Poll(fds, _, _) => if Relevant(s.tracked, fds) then Recorded(s, e) else s
    case PPoll(fds, _, _) => if Relevant(s.tracked, fds) then Recorded(s, e) else s
    case Read(fd, _, _, _) => if IsTracked(s.tracked, fd) then Recorded(s, e) else s
    case Write(fd, _, _, _) => if IsTracked(s.tracked, fd) then Recorded(s, e) else s
  }

  function Start(): Tracker { Tracker(seq(MAX_TRACKED_FDS, _ => false), []) }

  /** Requests are 32 bits wide. */
  predicate Possible(c: Call) { c.Ioctl? ==> c.request < WORD }

  function Run(cs: seq<(Call, Env)>): Tracker {
    if cs == [] then Start() else Apply(Run(cs[..|cs| - 1]), cs[|cs| - 1].0, cs[|cs| - 1].1)
  }

  ghost predicate AllPossible(cs: seq<(Call, Env)>) {
    forall i | 0 <= i < |cs| :: Possible(cs[i].0)
  }

  // ------------------------------------------------- the meaning of the log alone

  /** A successful hardware counter setup, read off its event. */
  predicate IsSetup(e: TraceEvent) {
    && e.kind == IOCTL && e.result >= 0
    && e.requestNr == 0x08 && e.aux0 == 0x80 && e.requestSize == 0x14 && e.aux1 == 1
  }

  /** The event introduces the descriptor. */
  predicate Introduces(e: TraceEvent, fd: int) {
    (IsOpen(e) && e.fd == fd) || (IsSetup(e) && e.result == fd)
  }

  predicate Closes(e: TraceEvent, fd: int) { e.kind == CLOSE && e.fd == fd }

  /** Introduced, and not closed since. */
  predicate Live(log: seq<TraceEvent>, fd: int) {
    if log == [] then false
    else
      var e := log[|log| - 1];
      Introduces(e, fd) || (!Closes(e, fd) && Live(log[..|log| - 1], fd))
  }

  ghost predicate LiveFrom(log: seq<TraceEvent>, fd: int, i: nat) {
    i < |log| && Introduces(log[i], fd) && forall k | i < k < |log| :: !Closes(log[k], fd)
  }

  lemma {:induction false} LiveMeans(log: seq<TraceEvent>, fd: int)
    ensures Live(log, fd) <==> exists i: nat :: LiveFrom(log, fd, i)
  {
    hide Introduces, Closes;
    if log != [] {
      var n := |log| - 1;
      LiveMeans(log[..n], fd);
      NoClash(log[n], fd);
      if Introduces(log[n], fd) {
        assert LiveFrom(log, fd, n);
      } else if !Closes(log[n], fd) {
        if i: nat :| LiveFrom(log[..n], fd, i) { assert LiveFrom(log, fd, i); }
        if i: nat :| LiveFrom(log, fd, i) { assert LiveFrom(log[..n], fd, i); }
      }
    }
  }

  lemma NoClash(e: TraceEvent, fd: int)
    ensures !(Introduces(e, fd) && Closes(e, fd))
  {
  }

  lemma {:induction false} LiveStep(log: seq<TraceEvent>, e: TraceEvent, fd: int)
    ensures Live(log + [e], fd) <==> Introduces(e, fd) || (!Closes(e, fd) && Live(log, fd))
  {
    assert (log + [e])[..|log|] == log;
  }

  // ------------------------------------------------------------- the invariant

  ghost predicate TracksLive(s: Tracker) {
    && |s.tracked| == MAX_TRACKED_FDS
    && forall fd | 0 <= fd < MAX_TRACKED_FDS :: s.tracked[fd] == Live(s.log, fd)
  }

  /** Every event except an open is about a descriptor live at that point. */
  ghost predicate OnLive(log: seq<TraceEvent>) {
    forall j | 0 <= j < |log| :: IsOpen(log[j]) || (0 <= log[j].fd < MAX_TRACKED_FDS && Live(log[..j], log[j].fd))
  }

  lemma {:induction false} OnLiveStep(log: seq<TraceEvent>, e: TraceEvent)
    requires OnLive(log)
    requires IsOpen(e) || (0 <= e.fd < MAX_TRACKED_FDS && Live(log, e.fd))
    ensures OnLive(log + [e])
  {
    hide Live, IsOpen;
    forall j | 0 <= j < |log + [e]|
      ensures IsOpen((log + [e])[j])
        || (0 <= (log + [e])[j].fd < MAX_TRACKED_FDS && Live((log + [e])[..j], (log + [e])[j].fd))
    {
      assert (log + [e])[..j] == log[..j];
      if j == |log| { assert log[..j] == log; }
    }
  }

  /** Recording an event and then marking or clearing one descriptor in the way the event
      says keeps the table equal to what the log says. */
  lemma {:induction false} RecordKeeps(s: Tracker, t: Tracker, e: TraceEvent)
    requires TracksLive(s) && OnLive(s.log) && |t.tracked| == MAX_TRACKED_FDS
    requires t.log == s.log + [e]
    requires IsOpen(e) || IsTracked(s.tracked, e.fd)
    requires forall fd | 0 <= fd < MAX_TRACKED_FDS ::
      t.tracked[fd] == (Introduces(e, fd) || (!Closes(e, fd) && s.tracked[fd]))
    ensures TracksLive(t) && OnLive(t.log)
  {
    hide Live, Introduces, Closes;
    OnLiveStep(s.log, e);
    forall fd | 0 <= fd < MAX_TRACKED_FDS ensures t.tracked[fd] == Live(t.log, fd) {
      LiveStep(s.log, e, fd);
    }
  }

  lemma {:induction false} SetupIsRequest(env: Env, fd: int, request: nat, arg: nat, r: int)
    requires request < WORD
    ensures IsSetup(IoctlEvent(env, fd, request, arg, r)) <==> request == KBASE_HWCNT_SETUP && r >= 0
  {
    RequestFromEvent(env, fd, request, arg, r);
  }

  lemma {:induction false} OpenKeeps(s: Tracker, e: TraceEvent)
    requires TracksLive(s) && OnLive(s.log) && IsOpen(e)
    ensures var t := Recorded(s.(tracked := Put(s.tracked, e.fd, true)), e);
      TracksLive(t) && OnLive(t.log)
  {
    RecordKeeps(s, Recorded(s.(tracked := Put(s.tracked, e.fd, true)), e), e);
  }

  lemma {:induction false} CloseKeeps(s: Tracker, e: TraceEvent)
    requires TracksLive(s) && OnLive(s.log) && e.kind == CLOSE && IsTracked(s.tracked, e.fd)
    ensures var t := Recorded(s, e);
      var u := t.(tracked := Put(t.tracked, e.fd, false));
      TracksLive(u) && OnLive(u.log)
  {
    var t := Recorded(s, e);
    RecordKeeps(s, t.(tracked := Put(t.tracked, e.fd, false)), e);
  }

  lemma {:induction false} IoctlKeeps(s: Tracker, e: TraceEvent)
    requires TracksLive(s) && OnLive(s.log) && e.kind == IOCTL && IsTracked(s.tracked, e.fd)
    ensures var t := Recorded(s, e);
      var u := if IsSetup(e) then t.(tracked := Put(t.tracked, e.result, true)) else t;
      TracksLive(u) && OnLive(u.log)
  {
    var t := Recorded(s, e);
    RecordKeeps(s, if IsSetup(e) then t.(tracked := Put(t.tracked, e.result, true)) else t, e);
  }

  lemma {:induction false} OtherKeeps(s: Tracker, e: TraceEvent)
    requires TracksLive(s) && OnLive(s.log) && !IsOpen(e) && e.kind != CLOSE && e.kind != IOCTL
    ensures TracksLive(Recorded(s, e)) && OnLive(Recorded(s, e).log)
  {
    if IsTracked(s.tracked, e.fd) { RecordKeeps(s, Recorded(s, e), e); }
  }

  lemma {:induction false} ApplyKeeps(s: Tracker, c: Call, env: Env)
    requires TracksLive(s) && OnLive(s.log) && Possible(c)
    ensures TracksLive(Apply(s, c, env)) && OnLive(Apply(s, c, env).log)
  {
    hide TracksLive, OnLive, MapBits, Recorded, Put, IsSetup, Relevant;
    var e := EventOf(c, env);
    match c
    case Open(mali, _, _, _) => if mali { OpenKeeps(s, e); }
    case OpenAt(mali, _, _, _, _) => if mali { OpenKeeps(s, e); }
    case Close(fd, _) => if IsTracked(s.tracked, fd) { CloseKeeps(s, e); }
    case Ioctl(fd, request, arg, r) =>
      if IsTracked(s.tracked, fd) {
        IoctlKeeps(s, e);
        SetupIsRequest(env, fd, request, arg, r);
      }
    case Mmap(_, _, _, _, _, _) => OtherKeeps(s, e);
    case Munmap(_, _, _) => OtherKeeps(s, e);
    case Poll(_, _, _) => OtherKeeps(s, e);
    case PPoll(_, _, _) => OtherKeeps(s, e);
    case Read(_, _, _, _) => OtherKeeps(s, e);
    case Write(_, _, _, _) => OtherKeeps(s, e);
  }

  lemma {:induction false} RunKeeps(cs: seq<(Call, Env)>)
    requires AllPossible(cs)
    ensures TracksLive(Run(cs)) && OnLive(Run(cs).log)
  {
    if cs != [] {
      hide Apply, TracksLive, OnLive;
      RunKeeps(cs[..|cs| - 1]);
      ApplyKeeps(Run(cs[..|cs| - 1]), cs[|cs| - 1].0, cs[|cs| - 1].1);
    }
  }

  // ------------------------------------------------------------------- theorems

  /** Every event except an open is preceded by the open or the counter setup that
      introduced its descriptor, with no close of it in between. */
  ghost predicate WellBracketed(log: seq<TraceEvent>) {
    forall j | 0 <= j < |log| && !IsOpen(log[j]) :: exists i: nat :: LiveFrom(log[..j], log[j].fd, i)
  }

  lemma {:induction false} OnLiveIsBracketed(log: seq<TraceEvent>)
    requires OnLive(log)
    ensures WellBracketed(log)
  {
    hide LiveFrom, Live, IsOpen;
    forall j | 0 <= j < |log| && !IsOpen(log[j]) ensures exists i: nat :: LiveFrom(log[..j], log[j].fd, i) {
      LiveMeans(log[..j], log[j].fd);
    }
  }

  lemma {:induction false} PrefixOnLive(log: seq<TraceEvent>, n: nat)
    requires OnLive(log) && n <= |log|
    ensures OnLive(log[..n])
  {
    hide Live, IsOpen;
    forall j | 0 <= j < n
      ensures IsOpen(log[..n][j]) || (0 <= log[..n][j].fd < MAX_TRACKED_FDS && Live(log[..n][..j], log[..n][j].fd))
    {
      assert log[..n][..j] == log[..j];
    }
  }

  /** Over every sequential run the table is exactly the set of live descriptors below its
      size, and the log is well bracketed; as overflow drops only a suffix, so is the part
      that is stored. */
  lemma {:induction false} RunIsWellBracketed(cs: seq<(Call, Env)>)
    requires AllPossible(cs)
    ensures WellBracketed(Run(cs).log)
    ensures WellBracketed(RecordAll(Run(cs).log).stored)
    ensures forall fd | 0 <= fd < MAX_TRACKED_FDS ::
      IsTracked(Run(cs).tracked, fd) <==> exists i: nat :: LiveFrom(Run(cs).log, fd, i)
  {
    hide LiveFrom, Live, OnLive, WellBracketed, Run, RecordAll, AllPossible;
    RunKeeps(cs);
    var log := Run(cs).log;
    OnLiveIsBracketed(log);
    PrefixOnLive(log, Min(|log|, CAPACITY));
    OnLiveIsBracketed(log[..Min(|log|, CAPACITY)]);
    StoredIsPrefix(log);
    forall fd | 0 <= fd < MAX_TRACKED_FDS
      ensures IsTracked(Run(cs).tracked, fd) <==> exists i: nat :: LiveFrom(log, fd, i)
    {
      LiveMeans(log, fd);
    }
  }

  /** A poll of tracked descriptors is recorded exactly when the first one is tracked; a
      munmap never is, as its descriptor -1 does not pass the guard. */
  lemma PollRecordedIff(s: Tracker, fds: seq<int>, timeout: int, nanoseconds: nat, r: int, env: Env)
    ensures Apply(s, Poll(fds, timeout, r), env) != s <==> fds != [] && IsTracked(s.tracked, fds[0])
    ensures Apply(s, PPoll(fds, nanoseconds, r), env) != s <==> fds != [] && IsTracked(s.tracked, fds[0])
  {
  }

  lemma MunmapIsFiltered(s: Tracker, address: nat, length: nat, r: int, env: Env)
    ensures Apply(s, Munmap(address, length, r), env) == s
  {
  }

  /** An open that fails, or gives a descriptor beyond the table, is recorded but not
      followed. */
  lemma UnfollowedOpen(s: Tracker, fd: int, flags: int, wide: bool, env: Env)
    requires |s.tracked| == MAX_TRACKED_FDS && !(0 <= fd < MAX_TRACKED_FDS)
    ensures var t := Apply(s, Open(true, flags, wide, fd), env);
      && t.log == s.log + [EventOf(Open(true, flags, wide, fd), env)]
      && t.tracked == s.tracked
      && !IsTracked(t.tracked, fd)
  {
  }

  /** The descriptor a call is about: the first of the list for poll and ppoll, -1 for
      munmap. */
  function AboutFd(c: Call): int {
    match c
    case Poll(fds, _, _) => if fds == [] then -1 else fds[0]
    case PPoll(fds, _, _) => if fds == [] then -1 else fds[0]
    case Munmap(_, _, _) => -1
    case _ => c.fd
  }

  /** Nothing that is done with such a descriptor is recorded or changes anything, and over
      every run, whatever came before, the log has only opens for it. */
  lemma {:induction false} UnfollowedForever(cs: seq<(Call, Env)>, fd: int, c: Call, env: Env)
    requires AllPossible(cs) && !(0 <= fd < MAX_TRACKED_FDS)
    ensures !c.Open? && !c.OpenAt? && AboutFd(c) == fd ==> Apply(Run(cs), c, env) == Run(cs)
    ensures forall e | e in Run(cs).log && e.fd == fd :: IsOpen(e)
  {
    RunKeeps(cs);
    hide Run, AllPossible, Live, MapBits;
    var s := Run(cs);
    assert |s.tracked| == MAX_TRACKED_FDS;
    forall e | e in s.log && e.fd == fd ensures IsOpen(e) {
      var j :| 0 <= j < |s.log| && s.log[j] == e;
    }
  }

  // ------------------------------------------------- what a call leaves in the log

  /** The real call failed. */
  predicate Fails(c: Call) {
    match c
    case Open(_, _, _, fd) => fd < 0
    case OpenAt(_, _, _, _, fd) => fd < 0
    case Mmap(_, _, _, _, _, address) => address == MAP_FAILED
    case _ => c.r < 0
  }

  predicate OpensDevice(c: Call) { (c.Open? || c.OpenAt?) && c.mali }

  /** An open is recorded when it is of the device, any other call when the descriptor it is
      about is followed. */
  predicate Logs(tracked: seq<bool>, c: Call) {
    if c.Open? || c.OpenAt? then c.mali else IsTracked(tracked, AboutFd(c))
  }

  /** v and w agree modulo 2^64, and v is the one that an unsigned field can hold. */
  predicate Wraps64(v: nat, w: int) { v < LONG && (v - w) % LONG == 0 }

  /** The event tells when and by whom the call was made, about which descriptor, and with what
      arguments and outcome. */
  predicate Tells(e: TraceEvent, c: Call, env: Env) {
    && (e.timestamp, e.tid, e.fd) == (env.now, env.tid, AboutFd(c))
    && (e.error == if Fails(c) || c.Open? || c.OpenAt? then env.errno else 0)
    && match c
       case Open(_, flags, wide, fd) =>
         && (e.kind, e.result, e.arg, e.aux1 == 64, e.flags) == (OPEN, fd, 0, wide, 0)
         && Wraps64(e.aux0, flags)
       case OpenAt(_, dirfd, flags, wide, fd) =>
         && (e.kind, e.result, e.arg, e.flags == 64) == (OPENAT, fd, 0, wide)
         && e.aux0 < WORD && (e.aux0 - dirfd) % WORD == 0 && Wraps64(e.aux1, flags)
       case Close(_, r) => (e.kind, e.result, e.arg, e.aux0, e.aux1, e.flags) == (CLOSE, r, 0, 0, 0, 0)
       case Ioctl(_, request, arg, r) =>
         && (e.kind, e.result, e.arg, e.flags) == (IOCTL, r, arg, 0)
         && e.requestNr < 0x100 && e.aux0 < 0x100 && e.requestSize < 0x4000 && e.aux1 < 4
         && (request < WORD ==>
               request == e.requestNr + 0x100 * e.aux0 + 0x1_0000 * e.requestSize + 0x4000_0000 * e.aux1)
       case Mmap(_, length, offset, prot, sharing, address) =>
         && (e.kind, e.arg, e.aux0) == (MMAP, address, length)
         && Wraps64(e.aux1, offset) && InInt32(e.result) && (e.result - address) % WORD == 0
         && (prot < 0x100 ==> e.flags == prot + 0x100 * (sharing % 0x100))
       case Munmap(address, length, r) => (e.kind, e.result, e.arg, e.aux0) == (MUNMAP, r, address, length)
       case Poll(fds, timeout, r) =>
         (e.kind, e.result, e.arg, e.aux1, e.flags) == (POLL, r, |fds|, 0, 0) && Wraps64(e.aux0, timeout)
       case PPoll(fds, nanoseconds, r) =>
         (e.kind, e.result, e.arg, e.aux0, e.aux1, e.flags) == (PPOLL, r, |fds|, nanoseconds, 0, 0)
       case Read(_, buffer, count, r) =>
         (e.kind, e.result, e.arg, e.aux0, e.aux1, e.flags) == (READ, r, buffer, count, 0, 0)
       case Write(_, buffer, count, r) =>
         (e.kind, e.result, e.arg, e.aux0, e.aux1, e.flags) == (WRITE, r, buffer, count, 0, 0)
  }

  lemma Remainder(v: int)
    ensures (v % LONG - v) % LONG == 0 && (v % WORD - v) % WORD == 0
  {
  }

  lemma {:induction false} EventTells(c: Call, env: Env)
    ensures Tells(EventOf(c, env), c, env)
  {
    hide MapBits;
    match c
    case Open(_, flags, _, _) => Remainder(flags);
    case OpenAt(_, dirfd, flags, _, _) =>
      Remainder(dirfd);
      Remainder(flags);
    case Ioctl(fd, request, arg, r) => if request < WORD { RequestFromEvent(env, fd, request, arg, r); }
    case Mmap(_, _, offset, prot, sharing, _) =>
      Remainder(offset);
      if prot < 0x100 { MapBitsApart(prot, sharing); }
    case Poll(_, timeout, _) => Remainder(timeout);
    case _ =>
  }

  /** A call adds one event, which tells of it, exactly when its descriptor is followed or it
      opens the device; and otherwise none. */
  lemma {:induction false} CallIsLogged(s: Tracker, c: Call, env: Env)
    ensures var log := Apply(s, c, env).log;
      if Logs(s.tracked, c) then |log| == |s.log| + 1 && s.log <= log && Tells(log[|s.log|], c, env) else log == s.log
  {
    hide Tells, MapBits, Put;
    EventTells(c, env);
    if c.Poll? || c.PPoll? {
      if c.fds != [] && IsTracked(s.tracked, c.fds[0]) { assert Relevant(s.tracked, c.fds); }
    }
  }

  /** The error of an event is that of the call, non-zero exactly for a failure with an errno,
      unless it is of an open that succeeded while errno was still set: an open records errno
      whatever its outcome. */
  lemma {:induction false} ErrorTellsFailureIff(s: Tracker, c: Call, env: Env)
    requires Logs(s.tracked, c)
    ensures var log := Apply(s, c, env).log;
      && |log| == |s.log| + 1
      && ((log[|s.log|].error != 0 <==> Fails(c) && env.errno != 0)
           <==> !((c.Open? || c.OpenAt?) && c.fd >= 0 && env.errno != 0))
  {
    CallIsLogged(s, c, env);
    hide Apply, Logs;
  }

  /** The positions of the calls that are recorded, in order. */
  function LoggedCalls(cs: seq<(Call, Env)>): (ks: seq<nat>)
    ensures forall i | 0 <= i < |ks| :: ks[i] < |cs|
    ensures forall i, j | 0 <= i < j < |ks| :: ks[i] < ks[j]
  {
    if cs == [] then []
    else
      var n := |cs| - 1;
      var rest := LoggedCalls(cs[..n]);
      if Logs(Run(cs[..n]).tracked, cs[n].0) then rest + [n] else rest
  }

  /** Over every run the log has one event for each call that is recorded, in order, and that
      event tells of that call. */
  lemma {:induction false} RunLogsCalls(cs: seq<(Call, Env)>)
    ensures var ks := LoggedCalls(cs);
      && |Run(cs).log| == |ks|
      && forall i | 0 <= i < |ks| :: Tells(Run(cs).log[i], cs[ks[i]].0, cs[ks[i]].1)
  {
    if cs != [] {
      hide Tells, Apply, Logs;
      var n := |cs| - 1;
      var before, after, rest := Run(cs[..n]).log, Run(cs).log, LoggedCalls(cs[..n]);
      RunLogsCalls(cs[..n]);
      CallIsLogged(Run(cs[..n]), cs[n].0, cs[n].1);
      assert before <= after;
      forall i | 0 <= i < |rest| ensures Tells(after[i], cs[rest[i]].0, cs[rest[i]].1) {
        assert after[i] == before[i] && cs[..n][rest[i]] == cs[rest[i]];
      }
    }
  }

  /** The call makes the tracer follow the descriptor: an open of the device that yields it, or
      a counter setup that does, on a descriptor that is followed. */
  predicate Begins(tracked: seq<bool>, c: Call, fd: int) {
    || (OpensDevice(c) && c.fd == fd)
    || (c.Ioctl? && c.request == KBASE_HWCNT_SETUP && c.r == fd && IsTracked(tracked, c.fd))
  }

  predicate Ends(c: Call, fd: int) { c.Close? && c.fd == fd }

  lemma {:induction false} TrackedStep(s: Tracker, c: Call, env: Env, fd: int)
    requires |s.tracked| == MAX_TRACKED_FDS && 0 <= fd < MAX_TRACKED_FDS
    ensures |Apply(s, c, env).tracked| == MAX_TRACKED_FDS
    ensures IsTracked(Apply(s, c, env).tracked, fd)
       <==> Begins(s.tracked, c, fd) || (IsTracked(s.tracked, fd) && !Ends(c, fd))
  {
    hide MapBits, Relevant;
  }

  ghost predicate BegunAt(cs: seq<(Call, Env)>, fd: int, i: nat) {
    && i < |cs| && Begins(Run(cs[..i]).tracked, cs[i].0, fd)
    && forall k | i < k < |cs| :: !Ends(cs[k].0, fd)
  }

  /** Over every run a descriptor is followed exactly when some call of it made the tracer
      follow it and no close came after that. */
  lemma {:induction false} RunFollowsCalls(cs: seq<(Call, Env)>, fd: int)
    requires 0 <= fd < MAX_TRACKED_FDS
    ensures |Run(cs).tracked| == MAX_TRACKED_FDS
    ensures IsTracked(Run(cs).tracked, fd) <==> exists i: nat :: BegunAt(cs, fd, i)
  {
    hide Apply, Begins, Ends;
    if cs != [] {
      var n := |cs| - 1;
      RunFollowsCalls(cs[..n], fd);
      TrackedStep(Run(cs[..n]), cs[n].0, cs[n].1, fd);
      NotBoth(Run(cs[..n]).tracked, cs[n].0, fd);
      if Begins(Run(cs[..n]).tracked, cs[n].0, fd) {
        assert BegunAt(cs, fd, n);
      } else if !Ends(cs[n].0, fd) {
        if i: nat :| BegunAt(cs[..n], fd, i) {
          assert cs[..n][..i] == cs[..i];
          assert BegunAt(cs, fd, i);
        }
        if i: nat :| BegunAt(cs, fd, i) {
          assert cs[..n][..i] == cs[..i];
          assert BegunAt(cs[..n], fd, i);
        }
      }
    }
  }

  lemma NotBoth(tracked: seq<bool>, c: Call, fd: int)
    ensures !(Begins(tracked, c, fd) && Ends(c, fd))
  {
  }

  // -------------------------------------------------------------- implementation

  ghost predicate OnlyLogged(slots: seq<TraceEvent>, log: seq<TraceEvent>) {
    forall i | 0 <= i < |slots| :: slots[i] == BLANK || slots[i] in log
  }

  /** Up to 2^32 events, the array and the drop counter are those of recording the log; and a
      slot never holds anything but zeros or an event of the log. */
  ghost predicate Stores(slots: seq<TraceEvent>, dropped: nat, log: seq<TraceEvent>) {
    && |slots| == CAPACITY
    && OnlyLogged(slots, log)
    && (|log| <= WORD ==> Trace(slots[..Min(|log|, CAPACITY)], dropped) == RecordAll(log))
  }

  /** One more event goes to the slot of the wrapped counter, or is dropped. */
  lemma {:induction false} StoresStep(slots: seq<TraceEvent>, dropped: nat, log: seq<TraceEvent>, e: TraceEvent)
    requires Stores(slots, dropped, log)
    ensures var slot := |log| % WORD;
      if slot < CAPACITY then Stores(slots[slot := e], dropped, log + [e]) else Stores(slots, dropped + 1, log + [e])
  {
    hide RecordAll;
    StoredIsPrefix(log);
    RecordStep(log, e);
  }

  /** The globals of the tracer, in a program of one thread. */
  class Tracer {
    const tracked: array<bool>
    const events: array<TraceEvent>
    var eventCount: nat
    var dropped: nat
    ghost var log: seq<TraceEvent>

    ghost predicate Valid()
      reads this, tracked, events
    {
      && tracked.Length == MAX_TRACKED_FDS
      && events.Length == CAPACITY
      && eventCount == |log| % WORD
      && Stores(events[..], dropped, log)
    }

    ghost function View(): Tracker
      reads this, tracked
    {
      Tracker(tracked[..], log)
    }

    constructor ()
      ensures Valid() && View() == Start() && fresh(tracked) && fresh(events)
    {
      tracked := new bool[MAX_TRACKED_FDS](_ => false);
      events := new TraceEvent[CAPACITY](_ => BLANK);
      eventCount, dropped, log := 0, 0, [];
    }

    predicate Followed(fd: int)
      reads tracked
    {
      0 <= fd < tracked.Length && tracked[fd]
    }

    method MarkFd(fd: int)
      requires Valid()
      modifies tracked
      ensures Valid() && View() == old(View()).(tracked := Put(old(tracked[..]), fd, true))
    {
      hide Stores;
      if 0 <= fd < tracked.Length { tracked[fd] := true; }
    }

    method UnmarkFd(fd: int)
      requires Valid()
      modifies tracked
      ensures Valid() && View() == old(View()).(tracked := Put(old(tracked[..]), fd, false))
    {
      hide Stores;
      if 0 <= fd < tracked.Length { tracked[fd] := false; }
    }

    method Append(e: TraceEvent)
      requires Valid()
      modifies this, events
      ensures Valid() && log == old(log) + [e]
    {
      hide Stores;
      StoresStep(events[..], dropped, log, e);
      var slot := eventCount;
      eventCount := (eventCount + 1) % WORD;
      log := log + [e];
      if slot >= CAPACITY {
        dropped := dropped + 1;
        return;
      }
      events[slot] := e;
      assert events[..] == old(events[..])[slot := e];
    }

    method RecordEvent(env: Env, kind: nat, fd: int, request: nat, arg: nat, aux0: nat, aux1: nat,
                       result: int, error: int, flags: nat)
      requires Valid()
      modifies this, events
      ensures Valid()
      ensures View() == Recorded(old(View()), Event(env, kind, fd, request, arg, aux0, aux1, result, error, flags))
    {
      hide Stores;
      if !Followed(fd) && kind != OPEN && kind != OPENAT { return; }
      Append(TraceEvent(env.now, arg, aux0, aux1, result, fd, env.tid, error, kind,
                        request % 0x100, request / 0x1_0000 % 0x4000, flags));
    }

    method Open(env: Env, mali: bool, flags: int, wide: bool, fd: int)
      requires Valid()
      modifies this, tracked, events
      ensures Valid() && View() == Apply(old(View()), Call.Open(mali, flags, wide, fd), env)
    {
      hide Valid;
      if mali {
        MarkFd(fd);
        RecordEvent(env, OPEN, fd, 0, 0, Unsigned64(flags), if wide then 64 else 0, fd, env.errno, 0);
      }
    }

    method OpenAt(env: Env, mali: bool, dirfd: int, flags: int, wide: bool, fd: int)
      requires Valid()
      modifies this, tracked, events
      ensures Valid() && View() == Apply(old(View()), Call.OpenAt(mali, dirfd, flags, wide, fd), env)
    {
      hide Valid;
      if mali {
        MarkFd(fd);
        RecordEvent(env, OPENAT, fd, 0, 0, dirfd % WORD, Unsigned64(flags), fd, env.errno, if wide then 64 else 0);
      }
    }

    method Close(env: Env, fd: int, r: int)
      requires Valid()
      modifies this, tracked, events
      ensures Valid() && View() == Apply(old(View()), Call.Close(fd, r), env)
    {
      hide Valid;
      if Followed(fd) {
        RecordEvent(env, CLOSE, fd, 0, 0, 0, 0, r, if r < 0 then env.errno else 0, 0);
        UnmarkFd(fd);
      }
    }

    method Ioctl(env: Env, fd: int, request: nat, arg: nat, r: int)
      requires Valid()
      modifies this, tracked, events
      ensures Valid() && View() == Apply(old(View()), Call.Ioctl(fd, request, arg, r), env)
    {
      hide Valid;
      if Followed(fd) {
        RecordEvent(env, IOCTL, fd, request, arg, request / 0x100 % 0x100, request / 0x4000_0000 % 4,
                    r, if r < 0 then env.errno else 0, 0);
        if request == KBASE_HWCNT_SETUP && r >= 0 { MarkFd(r); }
      }
    }

    method Mmap(env: Env, fd: int, length: nat, offset: int, prot: nat, sharing: nat, address: nat)
      requires Valid()
      modifies this, events
      ensures Valid() && View() == Apply(old(View()), Call.Mmap(fd, length, offset, prot, sharing, address), env)
    {
      hide Valid, MapBits;
      if Followed(fd) {
        RecordEvent(env, MMAP, fd, 0, address, length, Unsigned64(offset), Signed32(address),
                    if address == MAP_FAILED then env.errno else 0, MapBits(prot, sharing));
      }
    }

    /** The call is made only while the trace file is open, and filtered in any case. */
    method Munmap(env: Env, fileOpen: bool, address: nat, length: nat, r: int)
      requires Valid()
      modifies this, events
      ensures Valid() && View() == Apply(old(View()), Call.Munmap(address, length, r), env)
    {
      hide Valid;
      if fileOpen {
        RecordEvent(env, MUNMAP, -1, 0, address, length, 0, r, if r < 0 then env.errno else 0, 0);
      }
    }

    method AnyFollowed(fds: seq<int>) returns (relevant: bool)
      ensures relevant == Relevant(tracked[..], fds)
    {
      relevant := false;
      for i := 0 to |fds|
        invariant relevant == Relevant(tracked[..], fds[..i])
      {
        relevant := relevant || Followed(fds[i]);
        RelevantStep(tracked[..], fds[..i], fds[i]);
        assert fds[..i] + [fds[i]] == fds[..i + 1];
      }
      assert fds[..|fds|] == fds;
    }

    method Poll(env: Env, fds: seq<int>, timeout: int, r: int)
      requires Valid()
      modifies this, events
      ensures Valid() && View() == Apply(old(View()), Call.Poll(fds, timeout, r), env)
    {
      hide Valid;
      var relevant := AnyFollowed(fds);
      if relevant {
        RecordEvent(env, POLL, fds[0], 0, |fds|, Unsigned64(timeout), 0, r, if r < 0 then env.errno else 0, 0);
      }
    }

    method PPoll(env: Env, fds: seq<int>, nanoseconds: nat, r: int)
      requires Valid()
      modifies this, events
      ensures Valid() && View() == Apply(old(View()), Call.PPoll(fds, nanoseconds, r), env)
    {
      hide Valid;
      var relevant := AnyFollowed(fds);
      if relevant {
        RecordEvent(env, PPOLL, fds[0], 0, |fds|, nanoseconds, 0, r, if r < 0 then env.errno else 0, 0);
      }
    }

    method Read(env: Env, fd: int, buffer: nat, count: nat, r: int)
      requires Valid()
      modifies this, events
      ensures Valid() && View() == Apply(old(View()), Call.Read(fd, buffer, count, r), env)
    {
      hide Valid;
      if Followed(fd) { RecordEvent(env, READ, fd, 0, buffer, count, 0, r, if r < 0 then env.errno else 0, 0); }
    }

    method Write(env: Env, fd: int, buffer: nat, count: nat, r: int)
      requires Valid()
      modifies this, events
      ensures Valid() && View() == Apply(old(View()), Call.Write(fd, buffer, count, r), env)
    {
      hide Valid;
      if Followed(fd) { RecordEvent(env, WRITE, fd, 0, buffer, count, 0, r, if r < 0 then env.errno else 0, 0); }
    }

    /** Any one call of the traced program. */
    method Perform(c: Call, env: Env)
      requires Valid()
      modifies this, tracked, events
      ensures Valid() && View() == Apply(old(View()), c, env)
    {
      hide *;
      match c {
        case Open(mali, flags, wide, fd) => Open(env, mali, flags, wide, fd);
        case OpenAt(mali, dirfd, flags, wide, fd) => OpenAt(env, mali, dirfd, flags, wide, fd);
        case Close(fd, r) => Close(env, fd, r);
        case Ioctl(fd, request, arg, r) => Ioctl(env, fd, request, arg, r);
        case Mmap(fd, length, offset, prot, sharing, address) =>
          Mmap(env, fd, length, offset, prot, sharing, address);
        case Munmap(address, length, r) => Munmap(env, true, address, length, r);
        case Poll(fds, timeout, r) => Poll(env, fds, timeout, r);
        case PPoll(fds, nanoseconds, r) => PPoll(env, fds, nanoseconds, r);
        case Read(fd, buffer, count, r) => Read(env, fd, buffer, count, r);
        case Write(fd, buffer, count, r) => Write(env, fd, buffer, count, r);
      }
    }
  }
}
