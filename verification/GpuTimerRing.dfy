/** The ring of in-flight GPU timer queries of the stress renderer, its polling,
    throttling and counters (native/wayland_egl_stress.c). */
module GpuTimerRing {
  import opened Common

  const MAX_SAMPLES: nat := 8192
  const NO_SLOT: int := -1

  datatype Slot = Slot(active: bool, startedSec: real, sequence: nat)

  /** The driver is the environment: each time slot `i` is examined it answers with an
      observation, whose watermark is the highest query sequence finished at that moment.
      Nothing is assumed about watermarks except where a lemma says so. */
  datatype Observation = Observation(watermark: nat, disjoint: bool)

  /** offscreen: offscreen or pbuffer pacing; timed: timer queries are available; elapsed:
      the milliseconds the driver reports for the query of a given sequence. */
  datatype Config = Config(
    offscreen: bool, timed: bool, offscreenBatch: nat, warmupSec: real, elapsed: nat -> real)

  /** A result that was read: its query, when that was begun, and the disjoint flag. */
  datatype Reading = Reading(sequence: nat, startedSec: real, disjoint: bool)

  /** The queries and their results. `readings` and `begun` are history: the results read,
      in that order, and the time at which each query was begun. */
  datatype Ring = Ring(
    slots: seq<Slot>,
    timerSequence: nat,
    timerCompleted: nat,
    timerDiscarded: nat,
    samples: seq<real>,
    readings: seq<Reading>,
    begun: seq<real>)

  /** `waited` is history: the queries whose result was waited for, in order. */
  datatype State = State(
    ring: Ring,
    timerRingFull: nat,
    timerWaits: nat,
    frame: nat,
    frameBackpressure: nat,
    finishCount: nat,
    offscreenSinceSync: nat,
    running: bool,
    waited: seq<nat>)

  /** What the environment answers during one call of render: one observation per slot
      for each of the four polls, and the outcomes of the other foreign calls. */
  datatype FrameEnv = FrameEnv(
    throttleObs: seq<Observation>,
    waitObs: seq<Observation>,
    beginObs: seq<Observation>,
    endObs: seq<Observation>,
    now: real,
    expired: bool,
    visible: bool,
    targetMissing: bool,
    swapOk: bool)

  // ---------------------------------------------------------------- specification

  predicate Retires(slot: Slot, o: Observation) {
    slot.active && slot.sequence <= o.watermark
  }

  predicate Keeps(c: Config, r: Ring, slot: Slot, o: Observation) {
    !o.disjoint && slot.startedSec >= c.warmupSec && |r.samples| < MAX_SAMPLES
  }

  function PollSlot(c: Config, r: Ring, i: nat, o: Observation): Ring
    requires i < |r.slots|
  {
    var slot := r.slots[i];
    if !Retires(slot, o) then r
    else
      Ring(r.slots[i := slot.(active := false)],
           r.timerSequence,
           r.timerCompleted + 1,
           if o.disjoint then r.timerDiscarded + 1 else r.timerDiscarded,
           if Keeps(c, r, slot, o) then r.samples + [c.elapsed(slot.sequence)] else r.samples,
           r.readings + [Reading(slot.sequence, slot.startedSec, o.disjoint)],
           r.begun)
  }

  function PollUpTo(c: Config, r: Ring, k: nat, obs: seq<Observation>): (p: Ring)
    requires k <= |r.slots| == |obs|
    ensures |p.slots| == |r.slots| && p.timerSequence == r.timerSequence
    ensures forall j | k <= j < |r.slots| :: p.slots[j] == r.slots[j]
  {
    if k == 0 then r else PollSlot(c, PollUpTo(c, r, k - 1, obs), k - 1, obs[k - 1])
  }

  function Poll(c: Config, r: Ring, obs: seq<Observation>): (p: Ring)
    requires |obs| == |r.slots|
    ensures |p.slots| == |r.slots| && p.timerSequence == r.timerSequence
  {
    if c.timed then PollUpTo(c, r, |r.slots|, obs) else r
  }

  /** The first idle slot at or after `i`, or the number of slots. */
  function FirstFree(slots: seq<Slot>, i: nat): (k: nat)
    requires i <= |slots|
    ensures i <= k <= |slots|
    ensures k < |slots| ==> !slots[k].active
    ensures forall j | i <= j < k :: slots[j].active
    decreases |slots| - i
  {
    if i == |slots| then i else if !slots[i].active then i else FirstFree(slots, i + 1)
  }

  predicate Full(slots: seq<Slot>) {
    FirstFree(slots, 0) == |slots|
  }

  /** The active slot of least sequence among the first `k`, or NO_SLOT. */
  function Oldest(slots: seq<Slot>, k: nat): (m: int)
    requires k <= |slots|
    ensures NO_SLOT <= m < k
    ensures m == NO_SLOT ==> forall j | 0 <= j < k :: !slots[j].active
    ensures m >= 0 ==> slots[m].active
    ensures m >= 0 ==> forall j | 0 <= j < k && slots[j].active :: slots[m].sequence <= slots[j].sequence
  {
    if k == 0 then NO_SLOT
    else
      var m := Oldest(slots, k - 1);
      if slots[k - 1].active && (m < 0 || slots[k - 1].sequence < slots[m].sequence) then k - 1 else m
  }

  /** The ring once slot `i` times a new query. */
  function Claim(r: Ring, i: nat, now: real): (p: Ring)
    requires i < |r.slots|
    ensures |p.slots| == |r.slots|
  {
    r.(slots := r.slots[i := Slot(true, now, r.timerSequence + 1)],
       timerSequence := r.timerSequence + 1,
       begun := r.begun + [now])
  }

  /** The slot that times the next query, or NO_SLOT. */
  function BeginSlot(c: Config, r: Ring, obs: seq<Observation>): (slot: int)
    requires |obs| == |r.slots|
    ensures NO_SLOT <= slot < |r.slots|
  {
    if !c.timed then NO_SLOT
    else
      var p := Poll(c, r, obs);
      if Full(p.slots) then NO_SLOT else FirstFree(p.slots, 0)
  }

  function Begin(c: Config, s: State, obs: seq<Observation>, now: real): (t: State)
    requires |obs| == |s.ring.slots|
    ensures |t.ring.slots| == |s.ring.slots|
  {
    var p := Poll(c, s.ring, obs);
    var i := BeginSlot(c, s.ring, obs);
    if i >= 0 then s.(ring := Claim(p, i, now))
    else if c.timed then s.(ring := p, timerRingFull := s.timerRingFull + 1)
    else s
  }

  /** The ring is full: count the event and the wait for the oldest query. */
  function CountFull(s: State): (t: State)
    ensures t.ring == s.ring
  {
    var oldest := Oldest(s.ring.slots, |s.ring.slots|);
    var t := s.(timerRingFull := s.timerRingFull + 1, frameBackpressure := s.frameBackpressure + 1);
    if oldest < 0 then t
    else t.(timerWaits := t.timerWaits + 1, waited := t.waited + [t.ring.slots[oldest].sequence])
  }

  /** Count the full ring, wait and poll. */
  function Backpressure(c: Config, s: State, waitObs: seq<Observation>): (t: State)
    requires |waitObs| == |s.ring.slots|
    ensures |t.ring.slots| == |s.ring.slots|
  {
    var t := CountFull(s);
    if Oldest(s.ring.slots, |s.ring.slots|) >= 0 then t.(ring := Poll(c, s.ring, waitObs)) else t
  }

  function Throttle(c: Config, s: State, throttleObs: seq<Observation>, waitObs: seq<Observation>): (t: State)
    requires |throttleObs| == |waitObs| == |s.ring.slots|
    ensures |t.ring.slots| == |s.ring.slots|
  {
    if !c.offscreen then s
    else if c.timed then
      var p := Poll(c, s.ring, throttleObs);
      if Full(p.slots) then Backpressure(c, s.(ring := p), waitObs) else s.(ring := p)
    else if s.offscreenSinceSync >= c.offscreenBatch then
      s.(finishCount := s.finishCount + 1, frameBackpressure := s.frameBackpressure + 1, offscreenSinceSync := 0)
    else s
  }

  ghost predicate FrameFits(s: State, e: FrameEnv) {
    |e.throttleObs| == |e.waitObs| == |e.beginObs| == |e.endObs| == |s.ring.slots|
  }

  /** Time and draw one frame, then count it and poll. */
  function Draw(c: Config, s: State, e: FrameEnv): (t: State)
    requires FrameFits(s, e)
    ensures |t.ring.slots| == |s.ring.slots|
  {
    var b := Begin(c, s, e.beginObs, e.now);
    if !c.offscreen && !e.swapOk then b.(running := false)
    else
      b.(ring := Poll(c, b.ring, e.endObs),
         frame := b.frame + 1,
         offscreenSinceSync := if c.offscreen then b.offscreenSinceSync + 1 else b.offscreenSinceSync)
  }

  /** One call of render. */
  function Render(c: Config, s: State, e: FrameEnv): (t: State)
    requires FrameFits(s, e)
    ensures |t.ring.slots| == |s.ring.slots|
  {
    if !s.running || e.expired then s.(running := false)
    else if !e.visible && !c.offscreen then s
    else
      var t := Throttle(c, s, e.throttleObs, e.waitObs);
      if e.targetMissing then t.(running := false) else Draw(c, t, e)
  }

  ghost predicate AllFit(s: State, es: seq<FrameEnv>) {
    forall i | 0 <= i < |es| :: FrameFits(s, es[i])
  }

  function Run(c: Config, s: State, es: seq<FrameEnv>): (t: State)
    requires AllFit(s, es)
    ensures |t.ring.slots| == |s.ring.slots|
  {
    if es == [] then s else Render(c, Run(c, s, es[..|es| - 1]), es[|es| - 1])
  }

  predicate Initial(s: State) {
    && (forall i | 0 <= i < |s.ring.slots| :: !s.ring.slots[i].active)
    && s == State(Ring(s.ring.slots, 0, 0, 0, [], [], []), 0, 0, 0, 0, 0, 0, true, [])
  }

  // -------------------------------------------------------------- the ring invariant

  function ActiveCount(slots: seq<Slot>): (n: nat)
    ensures n <= |slots|
  {
    if slots == [] then 0
    else ActiveCount(slots[..|slots| - 1]) + if slots[|slots| - 1].active then 1 else 0
  }

  /** The queries whose result was read. */
  function Retired(readings: seq<Reading>): set<nat> {
    set x | x in readings :: x.sequence
  }

  lemma RetiredStep(readings: seq<Reading>, x: Reading)
    ensures Retired(readings + [x]) == Retired(readings) + {x.sequence}
  {
    forall q ensures q in Retired(readings + [x]) <==> q in Retired(readings) + {x.sequence} {
      if q in Retired(readings) {
        var y :| y in readings && y.sequence == q;
        assert y in readings + [x];
      }
      if q == x.sequence { assert x in readings + [x]; }
    }
  }

  function Issued(n: nat): (r: set<nat>)
    ensures forall q :: q in r <==> 1 <= q <= n
    ensures |r| == n
  {
    if n == 0 then {} else Issued(n - 1) + {n}
  }

  function Once(qs: set<nat>): multiset<nat> { multiset(qs) }

  /** The queries whose result was read, as often as it was. */
  function Read(readings: seq<Reading>): multiset<nat> {
    multiset(Sequences(readings))
  }

  function Sequences(readings: seq<Reading>): (qs: seq<nat>)
    ensures |qs| == |readings|
  {
    seq(|readings|, i requires 0 <= i < |readings| => readings[i].sequence)
  }

  lemma ReadStep(readings: seq<Reading>, x: Reading)
    ensures Read(readings + [x]) == Read(readings) + multiset{x.sequence}
  {
    assert Sequences(readings + [x]) == Sequences(readings) + [x.sequence];
  }

  function Wait(slot: Slot): multiset<nat> {
    if slot.active then multiset{slot.sequence} else multiset{}
  }

  /** The queries that active slots wait for. */
  function Pending(slots: seq<Slot>): multiset<nat> {
    if slots == [] then multiset{} else Pending(slots[..|slots| - 1]) + Wait(slots[|slots| - 1])
  }

  lemma Swap(a: multiset<nat>, b: multiset<nat>, c: multiset<nat>)
    ensures a + b + c == a + c + b == a + (b + c)
  {
  }

  lemma {:induction false} PendingUpdate(slots: seq<Slot>, i: nat, x: Slot)
    requires i < |slots|
    ensures Pending(slots[i := x]) + Wait(slots[i]) == Pending(slots) + Wait(x)
  {
    hide Wait;
    var n := |slots| - 1;
    if i < n {
      assert slots[i := x][..n] == slots[..n][i := x];
      PendingUpdate(slots[..n], i, x);
      Swap(Pending(slots[..n][i := x]), Wait(slots[n]), Wait(slots[i]));
      Swap(Pending(slots[..n]), Wait(x), Wait(slots[n]));
    } else {
      assert slots[i := x][..n] == slots[..n];
      Swap(Pending(slots[..n]), Wait(x), Wait(slots[n]));
    }
  }

  lemma {:induction false} NonePending(slots: seq<Slot>)
    requires forall i | 0 <= i < |slots| :: !slots[i].active
    ensures Pending(slots) == multiset{}
  {
    if slots != [] { NonePending(slots[..|slots| - 1]); }
  }

  /** Each issued query was read once or is waited for by one slot, and none is missing. */
  ghost predicate RingInv(r: Ring) {
    (Read(r.readings) + Pending(r.slots), r.timerCompleted) == (Once(Issued(r.timerSequence)), |r.readings|)
  }

  // --------------------------------------------------- what the invariant means

  ghost predicate Ledger(slots: seq<Slot>, retired: set<nat>, issued: nat) {
    && (forall i, j {:trigger slots[i].sequence, slots[j].sequence}
          | 0 <= i < j < |slots| && slots[i].active && slots[j].active :: slots[i].sequence != slots[j].sequence)
    && (forall i {:trigger slots[i].sequence} | 0 <= i < |slots| && slots[i].active ::
          1 <= slots[i].sequence <= issued && slots[i].sequence !in retired)
    && (forall q | q in retired :: 1 <= q <= issued)
    && |retired| + ActiveCount(slots) == issued
  }

  lemma {:induction false} PendingHas(slots: seq<Slot>, i: nat)
    requires i < |slots| && slots[i].active
    ensures Pending(slots)[slots[i].sequence] >= 1
  {
    if i < |slots| - 1 { PendingHas(slots[..|slots| - 1], i); }
  }

  lemma {:induction false} PendingHasBoth(slots: seq<Slot>, i: nat, j: nat)
    requires i < j < |slots| && slots[i].active && slots[j].active && slots[i].sequence == slots[j].sequence
    ensures Pending(slots)[slots[i].sequence] >= 2
  {
    if j < |slots| - 1 {
      PendingHasBoth(slots[..|slots| - 1], i, j);
    } else {
      PendingHas(slots[..j], i);
    }
  }

  lemma {:induction false} PendingSize(slots: seq<Slot>)
    ensures |Pending(slots)| == ActiveCount(slots)
  {
    if slots != [] { PendingSize(slots[..|slots| - 1]); }
  }

  lemma ReadHas(readings: seq<Reading>, q: nat)
    ensures q in Retired(readings) <==> Read(readings)[q] >= 1
  {
    if q in Retired(readings) {
      var x :| x in readings && x.sequence == q;
      var i :| 0 <= i < |readings| && readings[i] == x;
      assert Sequences(readings)[i] == q;
    }
    if q in Read(readings) {
      var i :| 0 <= i < |readings| && Sequences(readings)[i] == q;
      assert readings[i] in readings;
    }
  }

  lemma {:induction false} RetiredSize(readings: seq<Reading>)
    requires forall q :: Read(readings)[q] <= 1
    ensures |Retired(readings)| == |readings|
  {
    if readings == [] {
      assert Retired(readings) == {};
    } else {
      var n := |readings| - 1;
      var x := readings[n];
      assert readings == readings[..n] + [x];
      ReadStep(readings[..n], x);
      RetiredStep(readings[..n], x);
      ReadHas(readings[..n], x.sequence);
      hide Read, Retired;
      forall q ensures Read(readings[..n])[q] <= 1 { assert Read(readings)[q] <= 1; }
      assert Read(readings)[x.sequence] <= 1;
      RetiredSize(readings[..n]);
    }
  }

  lemma {:induction false} LedgerOf(r: Ring)
    requires RingInv(r)
    ensures Ledger(r.slots, Retired(r.readings), r.timerSequence)
    ensures |Retired(r.readings)| == |r.readings|
  {
    hide Pending, Read, Sequences, Retired, ActiveCount;
    var all := Once(Issued(r.timerSequence));
    assert forall q :: Read(r.readings)[q] + Pending(r.slots)[q] == all[q] <= 1;
    RetiredSize(r.readings);
    PendingSize(r.slots);
    ReadSize(r.readings);
    assert |Read(r.readings) + Pending(r.slots)| == |all| == r.timerSequence;
    forall i, j | 0 <= i < j < |r.slots| && r.slots[i].active && r.slots[j].active
      ensures r.slots[i].sequence != r.slots[j].sequence
    {
      if r.slots[i].sequence == r.slots[j].sequence { PendingHasBoth(r.slots, i, j); }
    }
    forall i | 0 <= i < |r.slots| && r.slots[i].active
      ensures r.slots[i].sequence in all && r.slots[i].sequence !in Retired(r.readings)
    {
      PendingHas(r.slots, i);
      ReadHas(r.readings, r.slots[i].sequence);
    }
    forall q | q in Retired(r.readings) ensures q in all { ReadHas(r.readings, q); }
  }

  lemma ReadSize(readings: seq<Reading>)
    ensures |Read(readings)| == |readings|
  {
  }

  // ------------------------------------------------------------ every step keeps it

  lemma {:induction false} PollSlotKeepsInv(c: Config, r: Ring, i: nat, o: Observation, p: Ring)
    requires i < |r.slots| && RingInv(r) && p == PollSlot(c, r, i, o)
    ensures RingInv(p)
  {
    hide Pending, Read, Issued, Once;
    var slot := r.slots[i];
    if Retires(slot, o) {
      PendingUpdate(r.slots, i, slot.(active := false));
      ReadStep(r.readings, Reading(slot.sequence, slot.startedSec, o.disjoint));
      assert Pending(p.slots) + multiset{slot.sequence} == Pending(r.slots);
      Swap(Read(r.readings), multiset{slot.sequence}, Pending(p.slots));
      Swap(Read(r.readings), Pending(p.slots), multiset{slot.sequence});
    }
  }

  lemma {:induction false} PollUpToKeepsInv(c: Config, r: Ring, k: nat, obs: seq<Observation>)
    requires k <= |r.slots| == |obs| && RingInv(r)
    ensures RingInv(PollUpTo(c, r, k, obs))
  {
    hide RingInv, PollSlot;
    if k > 0 {
      var p := PollUpTo(c, r, k - 1, obs);
      PollUpToKeepsInv(c, r, k - 1, obs);
      PollSlotKeepsInv(c, p, k - 1, obs[k - 1], PollUpTo(c, r, k, obs));
    }
  }

  lemma {:induction false} PollKeepsInv(c: Config, r: Ring, obs: seq<Observation>)
    requires |obs| == |r.slots| && RingInv(r)
    ensures RingInv(Poll(c, r, obs))
  {
    if c.timed { PollUpToKeepsInv(c, r, |r.slots|, obs); }
  }

  /** A poll retires a slot exactly when the watermark it saw had reached its query. */
  lemma {:induction false} PollEffect(c: Config, r: Ring, k: nat, obs: seq<Observation>)
    requires k <= |r.slots| == |obs|
    ensures forall i | 0 <= i < k ::
      PollUpTo(c, r, k, obs).slots[i] == r.slots[i].(active := r.slots[i].active && !Retires(r.slots[i], obs[i]))
  {
    if k > 0 { PollEffect(c, r, k - 1, obs); }
  }

  lemma {:induction false} ClaimKeepsInv(r: Ring, i: nat, now: real)
    requires i < |r.slots| && !r.slots[i].active && RingInv(r)
    ensures RingInv(Claim(r, i, now))
  {
    hide Pending, Read;
    var n := r.timerSequence + 1;
    PendingUpdate(r.slots, i, Slot(true, now, n));
    assert Pending(Claim(r, i, now).slots) == Pending(r.slots) + multiset{n};
    Swap(Read(r.readings), Pending(r.slots), multiset{n});
    assert Once(Issued(n)) == Once(Issued(n - 1)) + multiset{n};
  }

  lemma {:induction false} BeginKeepsInv(c: Config, s: State, obs: seq<Observation>, now: real)
    requires |obs| == |s.ring.slots| && RingInv(s.ring)
    ensures RingInv(Begin(c, s, obs, now).ring)
  {
    PollKeepsInv(c, s.ring, obs);
    var i := BeginSlot(c, s.ring, obs);
    if i >= 0 { ClaimKeepsInv(Poll(c, s.ring, obs), i, now); }
  }

  lemma {:induction false} ThrottleKeepsInv(
      c: Config, s: State, throttleObs: seq<Observation>, waitObs: seq<Observation>)
    requires |throttleObs| == |waitObs| == |s.ring.slots| && RingInv(s.ring)
    ensures RingInv(Throttle(c, s, throttleObs, waitObs).ring)
  {
    hide RingInv, Oldest, PollUpTo;
    PollKeepsInv(c, s.ring, throttleObs);
    PollKeepsInv(c, Poll(c, s.ring, throttleObs), waitObs);
  }

  lemma {:induction false} RenderKeepsInv(c: Config, s: State, e: FrameEnv)
    requires FrameFits(s, e) && RingInv(s.ring)
    ensures RingInv(Render(c, s, e).ring)
  {
    ThrottleKeepsInv(c, s, e.throttleObs, e.waitObs);
    var t := Throttle(c, s, e.throttleObs, e.waitObs);
    BeginKeepsInv(c, t, e.beginObs, e.now);
    PollKeepsInv(c, Begin(c, t, e.beginObs, e.now).ring, e.endObs);
  }

  lemma {:induction false} RunKeepsInv(c: Config, s: State, es: seq<FrameEnv>)
    requires Initial(s) && AllFit(s, es)
    ensures RingInv(Run(c, s, es).ring)
  {
    if es == [] {
      NonePending(s.ring.slots);
      assert Sequences([]) == [] && Issued(0) == {};
      assert Read([]) + Pending(s.ring.slots) == Once(Issued(0));
    } else {
      RunKeepsInv(c, s, es[..|es| - 1]);
      RenderKeepsInv(c, Run(c, s, es[..|es| - 1]), es[|es| - 1]);
    }
  }

  // ------------------------------------------------- every query is accounted for once

  function InFlight(slots: seq<Slot>): (r: set<nat>)
    ensures forall q :: q in r <==> exists i :: 0 <= i < |slots| && slots[i].active && slots[i].sequence == q
  {
    if slots == [] then {}
    else
      var last := slots[|slots| - 1];
      var rest := InFlight(slots[..|slots| - 1]);
      if last.active then rest + {last.sequence} else rest
  }

  lemma {:induction false} InFlightCount(slots: seq<Slot>)
    requires forall i, j | 0 <= i < j < |slots| && slots[i].active && slots[j].active ::
               slots[i].sequence != slots[j].sequence
    ensures |InFlight(slots)| == ActiveCount(slots)
  {
    if slots != [] { InFlightCount(slots[..|slots| - 1]); }
  }

  lemma {:induction false} FullSubset(a: set<nat>, b: set<nat>)
    requires a <= b && |a| == |b|
    ensures a == b
  {
    assert |b - a| == |b| - |a|;
  }

  /** Safety over whole runs, for every pacing and every behaviour of the GPU: each
      query issued so far was collected exactly once or is in flight in one slot, and
      no more than `timer_slots` are in flight. */
  lemma {:induction false} RunAccountsForEveryQuery(c: Config, s: State, es: seq<FrameEnv>)
    requires Initial(s) && AllFit(s, es)
    ensures var r := Run(c, s, es).ring;
      && Retired(r.readings) !! InFlight(r.slots)
      && Retired(r.readings) + InFlight(r.slots) == Issued(r.timerSequence)
      && |Retired(r.readings)| == |r.readings| == r.timerCompleted
      && |InFlight(r.slots)| == ActiveCount(r.slots) == r.timerSequence - r.timerCompleted <= |s.ring.slots|
  {
    RunKeepsInv(c, s, es);
    var r := Run(c, s, es).ring;
    LedgerOf(r);
    InFlightCount(r.slots);
    FullSubset(Retired(r.readings) + InFlight(r.slots), Issued(r.timerSequence));
  }

  // ----------------------------------------------------------- timed offscreen pacing

  /** The contract of the blocking read: once it returns, the query it waited for has
      finished, so every later observation is at or beyond it. */
  ghost predicate WaitCompletes(c: Config, s: State, e: FrameEnv)
    requires FrameFits(s, e)
  {
    var waited := Throttle(c, s, e.throttleObs, e.waitObs).waited;
    |waited| > |s.waited| ==>
      forall i | 0 <= i < |e.waitObs| :: waited[|waited| - 1] <= e.waitObs[i].watermark
  }

  lemma {:induction false} PollKeepsFree(c: Config, r: Ring, obs: seq<Observation>)
    requires |obs| == |r.slots| && !Full(r.slots)
    ensures !Full(Poll(c, r, obs).slots)
  {
    var i := FirstFree(r.slots, 0);
    PollEffect(c, r, |r.slots|, obs);
    assert !Poll(c, r, obs).slots[i].active;
  }

  /** After the throttle some slot is free, so the begin that follows cannot fail. */
  lemma {:induction false} ThrottleFreesASlot(c: Config, s: State, e: FrameEnv)
    requires c.offscreen && c.timed && |s.ring.slots| > 0
    requires FrameFits(s, e) && WaitCompletes(c, s, e)
    ensures var t := Throttle(c, s, e.throttleObs, e.waitObs);
      !Full(t.ring.slots) && BeginSlot(c, t.ring, e.beginObs) >= 0
  {
    var p := Poll(c, s.ring, e.throttleObs);
    var t := Throttle(c, s, e.throttleObs, e.waitObs);
    if Full(p.slots) {
      assert p.slots[0].active;
      var m := Oldest(p.slots, |p.slots|);
      PollEffect(c, p, |p.slots|, e.waitObs);
      assert !t.ring.slots[m].active;
    }
    PollKeepsFree(c, t.ring, e.beginObs);
  }

  ghost predicate TimedCounters(s: State) {
    s.frame == s.ring.timerSequence && s.timerRingFull == s.timerWaits == s.frameBackpressure
  }

  lemma {:induction false} RenderKeepsTimedCounters(c: Config, s: State, e: FrameEnv)
    requires c.offscreen && c.timed && |s.ring.slots| > 0
    requires FrameFits(s, e) && WaitCompletes(c, s, e) && TimedCounters(s)
    ensures TimedCounters(Render(c, s, e))
  {
    ThrottleFreesASlot(c, s, e);
    assert TimedCounters(Throttle(c, s, e.throttleObs, e.waitObs)) by {
      var slots := Poll(c, s.ring, e.throttleObs).slots;
      if Full(slots) { assert slots[0].active; }
    }
  }

  /** The throttle waits for one query at most, and that one is the oldest in flight. */
  lemma {:induction false} ThrottleWaitsForOldest(c: Config, s: State, e: FrameEnv)
    requires FrameFits(s, e)
    ensures var waited := Throttle(c, s, e.throttleObs, e.waitObs).waited;
      var pending := InFlight(Poll(c, s.ring, e.throttleObs).slots);
      || waited == s.waited
      || (waited == s.waited + [waited[|s.waited|]]
          && waited[|s.waited|] in pending
          && forall q | q in pending :: waited[|s.waited|] <= q)
  {
    hide Poll;
    var slots := Poll(c, s.ring, e.throttleObs).slots;
    var m := Oldest(slots, |slots|);
    if m >= 0 { assert slots[m].sequence in InFlight(slots); }
  }

  /** Waits are counted, go up in query order, and everything in flight is younger than the
      last query waited for. */
  ghost predicate WaitsInOrder(s: State) {
    && s.timerWaits == |s.waited|
    && (forall i, j | 0 <= i < j < |s.waited| :: s.waited[i] < s.waited[j])
    && (forall i | 0 <= i < |s.waited| :: s.waited[i] <= s.ring.timerSequence)
    && (s.waited != [] ==> YoungerThan(s.ring.slots, s.waited[|s.waited| - 1]))
  }

  ghost predicate YoungerThan(slots: seq<Slot>, q: nat) {
    forall i | 0 <= i < |slots| && slots[i].active :: q < slots[i].sequence
  }

  lemma {:induction false} PollKeepsYounger(c: Config, r: Ring, obs: seq<Observation>, q: nat)
    requires |obs| == |r.slots| && YoungerThan(r.slots, q)
    ensures YoungerThan(Poll(c, r, obs).slots, q)
  {
    PollEffect(c, r, |r.slots|, obs);
  }

  /** Having waited for the oldest query, only younger ones are in flight. */
  lemma {:induction false} WaitLeavesYounger(c: Config, r: Ring, obs: seq<Observation>)
    requires c.timed && RingInv(r) && |obs| == |r.slots| && Oldest(r.slots, |r.slots|) >= 0
    requires forall i | 0 <= i < |obs| :: r.slots[Oldest(r.slots, |r.slots|)].sequence <= obs[i].watermark
    ensures YoungerThan(Poll(c, r, obs).slots, r.slots[Oldest(r.slots, |r.slots|)].sequence)
  {
    LedgerOf(r);
    PollEffect(c, r, |r.slots|, obs);
    var m := Oldest(r.slots, |r.slots|);
    forall i | 0 <= i < |r.slots| && Poll(c, r, obs).slots[i].active
      ensures r.slots[m].sequence < Poll(c, r, obs).slots[i].sequence
    {
      if i != m { assert r.slots[i].sequence != r.slots[m].sequence; }
    }
  }

  lemma {:induction false} ThrottleKeepsOrder(c: Config, s: State, e: FrameEnv)
    requires FrameFits(s, e) && WaitCompletes(c, s, e) && RingInv(s.ring) && WaitsInOrder(s)
    ensures WaitsInOrder(Throttle(c, s, e.throttleObs, e.waitObs))
  {
    hide Oldest, RingInv;
    var p := Poll(c, s.ring, e.throttleObs);
    PollKeepsInv(c, s.ring, e.throttleObs);
    if s.waited != [] { PollKeepsYounger(c, s.ring, e.throttleObs, s.waited[|s.waited| - 1]); }
    if c.offscreen && c.timed && Full(p.slots) {
      var m := Oldest(p.slots, |p.slots|);
      if m >= 0 {
        ActiveIsIssued(p, m);
        WaitLeavesYounger(c, p, e.waitObs);
      }
    }
  }

  lemma ActiveIsIssued(r: Ring, i: nat)
    requires RingInv(r) && i < |r.slots| && r.slots[i].active
    ensures r.slots[i].sequence <= r.timerSequence
  {
    LedgerOf(r);
  }

  lemma {:induction false} DrawKeepsOrder(c: Config, s: State, e: FrameEnv)
    requires FrameFits(s, e) && WaitsInOrder(s)
    ensures WaitsInOrder(Draw(c, s, e))
  {
    hide Poll;
    if s.waited != [] {
      var q := s.waited[|s.waited| - 1];
      PollKeepsYounger(c, s.ring, e.beginObs, q);
      var b := Begin(c, s, e.beginObs, e.now);
      assert YoungerThan(b.ring.slots, q);
      PollKeepsYounger(c, b.ring, e.endObs, q);
    }
  }

  /** Over every run the queries waited for are strictly increasing, so none is waited for
      twice. */
  lemma {:induction false} RunWaitsInOrder(c: Config, s: State, es: seq<FrameEnv>)
    requires Initial(s) && AllFit(s, es) && WaitsComplete(c, s, es)
    ensures WaitsInOrder(Run(c, s, es))
  {
    if es != [] {
      var before, e := Run(c, s, es[..|es| - 1]), es[|es| - 1];
      RunWaitsInOrder(c, s, es[..|es| - 1]);
      RunKeepsInv(c, s, es[..|es| - 1]);
      hide RingInv, WaitsInOrder, Throttle, Draw;
      ThrottleKeepsOrder(c, before, e);
      DrawKeepsOrder(c, Throttle(c, before, e.throttleObs, e.waitObs), e);
      RunningDoesNotMatter(before);
      RunningDoesNotMatter(Throttle(c, before, e.throttleObs, e.waitObs));
    }
  }

  lemma RunningDoesNotMatter(s: State)
    requires WaitsInOrder(s)
    ensures WaitsInOrder(s.(running := false))
  {
  }

  /** Every frame of the run met a driver that honours blocking reads. */
  ghost predicate WaitsComplete(c: Config, s: State, es: seq<FrameEnv>)
    requires AllFit(s, es)
  {
    es == [] || (WaitsComplete(c, s, es[..|es| - 1]) && WaitCompletes(c, Run(c, s, es[..|es| - 1]), es[|es| - 1]))
  }

  /** In timed offscreen pacing every frame starts exactly one query, and ring-full
      events, waits and back-pressure events are the same events. */
  lemma {:induction false} RunTimesEveryFrame(c: Config, s: State, es: seq<FrameEnv>)
    requires c.offscreen && c.timed && |s.ring.slots| > 0
    requires Initial(s) && AllFit(s, es) && WaitsComplete(c, s, es)
    ensures TimedCounters(Run(c, s, es))
  {
    if es != [] {
      RunTimesEveryFrame(c, s, es[..|es| - 1]);
      RenderKeepsTimedCounters(c, Run(c, s, es[..|es| - 1]), es[|es| - 1]);
    }
  }

  // -------------------------------------------------------------------- the final drain

  /** One glFinish and one poll. */
  function DrainRound(c: Config, s: State, obs: seq<Observation>): (t: State)
    requires |obs| == |s.ring.slots|
    ensures |t.ring.slots| == |s.ring.slots|
  {
    s.(finishCount := s.finishCount + 1, ring := Poll(c, s.ring, obs))
  }

  function DrainUpTo(c: Config, s: State, k: nat, polls: seq<seq<Observation>>): (t: State)
    requires k <= |polls| && forall i | 0 <= i < |polls| :: |polls[i]| == |s.ring.slots|
    ensures |t.ring.slots| == |s.ring.slots|
  {
    if k == 0 then s
    else DrainRound(c, DrainUpTo(c, s, k - 1, polls), polls[k - 1])
  }

  function Rounds(c: Config): nat { if c.timed then 5 else 1 }

  /** The contract of glFinish: everything issued has finished. */
  ghost predicate Finished(obs: seq<Observation>, issued: nat) {
    forall i | 0 <= i < |obs| :: issued <= obs[i].watermark
  }

  lemma {:induction false} FinishedPollEmpties(c: Config, r: Ring, obs: seq<Observation>)
    requires c.timed && |obs| == |r.slots| && RingInv(r) && Finished(obs, r.timerSequence)
    ensures AllIdle(Poll(c, r, obs).slots)
  {
    LedgerOf(r);
    PollEffect(c, r, |r.slots|, obs);
  }

  predicate AllIdle(slots: seq<Slot>) {
    forall i | 0 <= i < |slots| :: !slots[i].active
  }

  ghost predicate Drained(s: State, t: State, k: nat) {
    && RingInv(t.ring)
    && (t.ring.timerSequence, t.frame, t.finishCount) == (s.ring.timerSequence, s.frame, s.finishCount + k)
    && (k > 0 ==> AllIdle(t.ring.slots))
  }

  lemma {:induction false} DrainEffect(c: Config, s: State, k: nat, polls: seq<seq<Observation>>)
    requires k <= |polls| && forall i | 0 <= i < |polls| :: |polls[i]| == |s.ring.slots|
    requires c.timed && RingInv(s.ring)
    requires forall i | 0 <= i < |polls| :: Finished(polls[i], s.ring.timerSequence)
    ensures Drained(s, DrainUpTo(c, s, k, polls), k)
  {
    hide RingInv, Finished, Poll, AllIdle;
    if k > 0 {
      DrainEffect(c, s, k - 1, polls);
      assert Finished(polls[k - 1], s.ring.timerSequence);
      PollKeepsInv(c, DrainUpTo(c, s, k - 1, polls).ring, polls[k - 1]);
      FinishedPollEmpties(c, DrainUpTo(c, s, k - 1, polls).ring, polls[k - 1]);
    }
  }

  lemma IdleReadAll(r: Ring)
    requires RingInv(r) && AllIdle(r.slots)
    ensures (Retired(r.readings), r.timerCompleted, |r.readings|)
         == (Issued(r.timerSequence), r.timerSequence, r.timerSequence)
  {
    LedgerOf(r);
    NonePending(r.slots);
    PendingSize(r.slots);
    hide RingInv, Retired;
    FullSubset(Retired(r.readings), Issued(r.timerSequence));
  }

  /** After any timed run and the final drain every query has been collected exactly
      once; in offscreen pacing that is one query for every frame. */
  lemma {:induction false} DrainTimesEachFrameOnce(c: Config, s: State, es: seq<FrameEnv>, polls: seq<seq<Observation>>)
    requires c.timed && |s.ring.slots| > 0
    requires Initial(s) && AllFit(s, es)
    requires |polls| == Rounds(c) && forall i | 0 <= i < |polls| :: |polls[i]| == |s.ring.slots|
    requires forall i | 0 <= i < |polls| :: Finished(polls[i], Run(c, s, es).ring.timerSequence)
    ensures var end := Run(c, s, es);
      var t := DrainUpTo(c, end, Rounds(c), polls);
      && (Retired(t.ring.readings), t.ring.timerCompleted, |t.ring.readings|, t.finishCount, t.frame)
        == (Issued(end.ring.timerSequence), end.ring.timerSequence, end.ring.timerSequence, end.finishCount + 5,
            end.frame)
      && AllIdle(t.ring.slots)
      && (c.offscreen && WaitsComplete(c, s, es) ==> end.ring.timerSequence == end.frame)
  {
    var end := Run(c, s, es);
    RunKeepsInv(c, s, es);
    DrainEffect(c, end, Rounds(c), polls);
    hide RingInv, Retired, Run, DrainUpTo, WaitsComplete, AllIdle;
    var r := DrainUpTo(c, end, Rounds(c), polls).ring;
    IdleReadAll(r);
    if c.offscreen && WaitsComplete(c, s, es) { RunTimesEveryFrame(c, s, es); }
  }

  // ---------------------------------------------------- presentation and untimed pacing

  /** With presentation the throttle never acts: each frame is either timed or counted
      as a ring-full event, and only a failing swap (which stops the run) breaks step. */
  lemma {:induction false} PresentationAccounting(c: Config, s: State, es: seq<FrameEnv>)
    requires !c.offscreen && c.timed && Initial(s) && AllFit(s, es)
    ensures var t := Run(c, s, es);
      && t.ring.timerSequence + t.timerRingFull - t.frame in (if t.running then {0} else {0, 1})
      && (t.timerWaits, t.frameBackpressure) == (0, 0)
  {
    if es != [] { PresentationAccounting(c, s, es[..|es| - 1]); }
  }

  ghost predicate BatchCounters(c: Config, s: State) {
    && (s.frame, s.finishCount) == (c.offscreenBatch * s.frameBackpressure + s.offscreenSinceSync, s.frameBackpressure)
    && s.offscreenSinceSync <= c.offscreenBatch
  }

  /** Nothing has been finished since the last frame, unless there was none. */
  predicate FrameSinceSync(s: State) { s.frame > 0 ==> s.offscreenSinceSync > 0 }

  lemma {:induction false} RenderKeepsBatch(c: Config, s: State, e: FrameEnv)
    requires c.offscreen && !c.timed && c.offscreenBatch > 0 && FrameFits(s, e) && BatchCounters(c, s)
    ensures BatchCounters(c, Render(c, s, e))
    ensures FrameSinceSync(s) && (!e.targetMissing || Render(c, s, e).running) ==> FrameSinceSync(Render(c, s, e))
  {
    var n, f := c.offscreenBatch, s.frameBackpressure;
    assert n * (f + 1) == n * f + n;
  }

  /** The run did not end for want of a render target. */
  ghost predicate TargetsPresent(es: seq<FrameEnv>) {
    forall i | 0 <= i < |es| :: !es[i].targetMissing
  }

  lemma {:induction false} RunKeepsBatch(c: Config, s: State, es: seq<FrameEnv>)
    requires c.offscreen && !c.timed && c.offscreenBatch > 0 && Initial(s) && AllFit(s, es)
    ensures BatchCounters(c, Run(c, s, es))
    ensures TargetsPresent(es) || Run(c, s, es).running ==> FrameSinceSync(Run(c, s, es))
  {
    if es != [] {
      RunKeepsBatch(c, s, es[..|es| - 1]);
      RenderKeepsBatch(c, Run(c, s, es[..|es| - 1]), es[|es| - 1]);
    }
  }

  lemma {:induction false} MultipleGap(n: nat, lo: nat, hi: nat)
    requires lo < hi
    ensures n * lo + n <= n * hi
  {
    var k := hi - lo - 1;
    assert n * hi == n * lo + n + n * k;
    assert n * k >= 0;
  }

  lemma {:induction false} Quotient(a: nat, n: nat, q: nat, r: nat)
    requires a == n * q + r && r < n
    ensures a / n == q
  {
    var d := a / n;
    assert n * d <= a < n * d + n;
    if d < q {
      MultipleGap(n, d, q);
    } else if q < d {
      MultipleGap(n, q, d);
    }
  }

  /** Without timer queries the renderer finishes the GPU once per full batch, so at most
      one batch is ever outstanding. The equation holds of every run, ended or not; only a
      run that ends for want of a render target may end right after a finish. */
  lemma {:induction false} UntimedBackpressure(c: Config, s: State, es: seq<FrameEnv>)
    requires c.offscreen && !c.timed && c.offscreenBatch > 0 && Initial(s) && AllFit(s, es)
    ensures var t := Run(c, s, es);
      && t.frame == c.offscreenBatch * t.frameBackpressure + t.offscreenSinceSync
      && t.offscreenSinceSync <= c.offscreenBatch
      && t.frameBackpressure == t.finishCount
      && (t.frame > 0 && (t.running || TargetsPresent(es)) ==>
            1 <= t.offscreenSinceSync && t.frameBackpressure == (t.frame - 1) / c.offscreenBatch)
  {
    RunKeepsBatch(c, s, es);
    var t := Run(c, s, es);
    if t.offscreenSinceSync > 0 {
      Quotient(t.frame - 1, c.offscreenBatch, t.frameBackpressure, t.offscreenSinceSync - 1);
    }
  }

  // ------------------------------------------------ when a frame is drawn, and what of it

  /** The environment lets a frame begin: the time is not up, and the surface is shown or
      not needed. */
  predicate Attempts(c: Config, e: FrameEnv) { !e.expired && (e.visible || c.offscreen) }

  /** It also has a render target and shows what is drawn. */
  predicate Drawable(c: Config, e: FrameEnv) {
    Attempts(c, e) && !e.targetMissing && (c.offscreen || e.swapOk)
  }

  /** The environment ends the run: the time is up, or the render target is missing or the
      swap fails when a frame needs them. */
  predicate Stops(c: Config, e: FrameEnv) {
    e.expired || (Attempts(c, e) && (e.targetMissing || (!c.offscreen && !e.swapOk)))
  }

  /** One more frame is counted exactly when the renderer runs and the environment lets it
      draw; it goes on exactly when the environment does not end the run; a hidden presented
      surface changes nothing. */
  lemma {:induction false} FrameIsDrawnIff(c: Config, s: State, e: FrameEnv)
    requires FrameFits(s, e)
    ensures var t := Render(c, s, e);
      && (t.frame, t.running) == (s.frame + if s.running && Drawable(c, e) then 1 else 0, s.running && !Stops(c, e))
      && (s.running && !Attempts(c, e) ==> t == s.(running := !e.expired))
  {
    hide Poll, Oldest, Claim, BeginSlot;
  }

  /** The frames of a run that can be drawn, before any that ends it. */
  ghost function Drawn(c: Config, es: seq<FrameEnv>): set<nat> {
    set i: nat | i < |es| && Drawable(c, es[i]) && forall j | 0 <= j < i :: !Stops(c, es[j])
  }

  lemma DrawnGrows(c: Config, es: seq<FrameEnv>)
    requires es != []
    ensures var n := |es| - 1;
      |Drawn(c, es)| == |Drawn(c, es[..n])|
        + if Drawable(c, es[n]) && (forall j | 0 <= j < n :: !Stops(c, es[j])) then 1 else 0
  {
    hide Drawable, Stops;
    var n := |es| - 1;
    forall i: nat ensures i in Drawn(c, es[..n]) <==> i in Drawn(c, es) && i != n {
      if i < n {
        assert es[..n][i] == es[i];
        assert forall j | 0 <= j < i :: es[..n][j] == es[j];
      }
    }
    assert Drawn(c, es[..n]) == Drawn(c, es) - {n};
  }

  /** Over every run, in any pacing and with any driver: the frames counted are the calls that
      could draw before one that ends the run, and the renderer runs until such a call. */
  lemma {:induction false} RunDrawsFrames(c: Config, s: State, es: seq<FrameEnv>)
    requires Initial(s) && AllFit(s, es)
    ensures (Run(c, s, es).frame, Run(c, s, es).running)
         == (|Drawn(c, es)|, forall i | 0 <= i < |es| :: !Stops(c, es[i]))
  {
    hide Render, Drawable, Stops, Drawn;
    if es == [] {
      assert Drawn(c, es) == {} by { NoneDrawn(c, es); }
    } else {
      var n := |es| - 1;
      RunDrawsFrames(c, s, es[..n]);
      DrawnGrows(c, es);
      FrameIsDrawnIff(c, Run(c, s, es[..n]), es[n]);
      assert forall j | 0 <= j < n :: es[..n][j] == es[j];
    }
  }

  lemma NoneDrawn(c: Config, es: seq<FrameEnv>)
    requires es == []
    ensures Drawn(c, es) == {}
  {
  }

  /** A poll of the frame before its query begins finds the query of slot `i` finished. */
  predicate SeenBefore(c: Config, slot: Slot, e: FrameEnv, i: nat, waits: bool)
    requires i < |e.throttleObs| == |e.waitObs| == |e.beginObs|
  {
    || (c.offscreen && slot.sequence <= e.throttleObs[i].watermark)
    || (waits && slot.sequence <= e.waitObs[i].watermark)
    || slot.sequence <= e.beginObs[i].watermark
  }

  lemma {:induction false} ThrottleSlots(c: Config, s: State, e: FrameEnv, i: nat)
    requires c.timed && FrameFits(s, e) && i < |s.ring.slots|
    ensures var t := Throttle(c, s, e.throttleObs, e.waitObs);
      var slot := s.ring.slots[i];
      var seen :=
        || (c.offscreen && slot.sequence <= e.throttleObs[i].watermark)
        || (|t.waited| > |s.waited| && slot.sequence <= e.waitObs[i].watermark);
      t.ring.slots[i] == slot.(active := slot.active && !seen)
  {
    hide PollUpTo, Oldest;
    var n, p := |s.ring.slots|, Poll(c, s.ring, e.throttleObs);
    PollEffect(c, s.ring, n, e.throttleObs);
    PollEffect(c, p, n, e.waitObs);
  }

  lemma {:induction false} DrawSlots(c: Config, s: State, e: FrameEnv, i: nat)
    requires c.timed && FrameFits(s, e) && i < |s.ring.slots|
    ensures var t := Draw(c, s, e);
      var slot, k := s.ring.slots[i], BeginSlot(c, s.ring, e.beginObs);
      var waiting := slot.active && slot.sequence > e.beginObs[i].watermark;
      var polled, q := c.offscreen || e.swapOk, s.ring.timerSequence + 1;
      && t.ring.slots[i] ==
           (if i == k then Slot(polled ==> q > e.endObs[i].watermark, e.now, q)
            else slot.(active := waiting && (polled ==> slot.sequence > e.endObs[i].watermark)))
      && (if k < 0 then waiting else i == k ==> !waiting)
  {
    hide PollUpTo;
    var n, p := |s.ring.slots|, Poll(c, s.ring, e.beginObs);
    PollEffect(c, s.ring, n, e.beginObs);
    PollEffect(c, Begin(c, s, e.beginObs, e.now).ring, n, e.endObs);
  }

  lemma IssuedByFrame(c: Config, s: State, e: FrameEnv)
    requires FrameFits(s, e)
    ensures var t := Throttle(c, s, e.throttleObs, e.waitObs); var d := Draw(c, t, e);
      var k := BeginSlot(c, t.ring, e.beginObs);
      (t.ring.timerSequence, d.ring.timerSequence, d.ring.begun, d.waited)
        == (s.ring.timerSequence,
            s.ring.timerSequence + if k >= 0 then 1 else 0,
            if k >= 0 then s.ring.begun + [e.now] else s.ring.begun,
            t.waited)
  {
    hide PollUpTo, Oldest, BeginSlot;
    PollBegins(c, s.ring, |s.ring.slots|, e.throttleObs);
    var p := Poll(c, s.ring, e.throttleObs);
    PollBegins(c, p, |s.ring.slots|, e.waitObs);
    var t := Throttle(c, s, e.throttleObs, e.waitObs);
    PollBegins(c, t.ring, |s.ring.slots|, e.beginObs);
    PollBegins(c, Begin(c, t, e.beginObs, e.now).ring, |s.ring.slots|, e.endObs);
  }

  lemma {:induction false} PollBegins(c: Config, r: Ring, k: nat, obs: seq<Observation>)
    requires k <= |r.slots| == |obs|
    ensures PollUpTo(c, r, k, obs).begun == r.begun
  {
    if k > 0 { PollBegins(c, r, k - 1, obs); }
  }

  /** The throttle waits exactly when every slot times a query that its poll does not find
      finished. */
  lemma {:induction false} ThrottleWaitsIff(c: Config, s: State, e: FrameEnv)
    requires FrameFits(s, e)
    ensures |Throttle(c, s, e.throttleObs, e.waitObs).waited| > |s.waited| <==>
      && c.offscreen && c.timed && s.ring.slots != []
      && forall i | 0 <= i < |s.ring.slots| ::
           s.ring.slots[i].active && s.ring.slots[i].sequence > e.throttleObs[i].watermark
  {
    hide PollUpTo, Oldest;
    var n, p := |s.ring.slots|, Poll(c, s.ring, e.throttleObs);
    PollEffect(c, s.ring, n, e.throttleObs);
    if n > 0 && Full(p.slots) { assert p.slots[0].active; }
  }

  /** In every state the ring can be in, a frame that is attempted on a render target begins one
      query exactly when some slot is idle or its query is found finished by a poll before
      that; and a query in flight stays in its slot exactly while no poll of the frame finds
      it finished. The last poll is made only if the frame is shown or need not be. */
  lemma {:induction false} FrameQueries(c: Config, s: State, e: FrameEnv)
    requires c.timed && s.running && Attempts(c, e) && !e.targetMissing
    requires FrameFits(s, e) && RingInv(s.ring)
    ensures var t := Render(c, s, e); var waits := |t.waited| > |s.waited|;
      && (t.ring.timerSequence, t.ring.begun) ==
           (if exists i | 0 <= i < |s.ring.slots| ::
                 !s.ring.slots[i].active || SeenBefore(c, s.ring.slots[i], e, i, waits)
            then (s.ring.timerSequence + 1, s.ring.begun + [e.now]) else (s.ring.timerSequence, s.ring.begun))
      && forall i | 0 <= i < |s.ring.slots| && s.ring.slots[i].active ::
           t.ring.slots[i] == s.ring.slots[i] <==>
             && !SeenBefore(c, s.ring.slots[i], e, i, waits)
             && ((c.offscreen || e.swapOk) ==> s.ring.slots[i].sequence > e.endObs[i].watermark)
  {
    hide Throttle, Draw, RingInv, BeginSlot;
    var u := Throttle(c, s, e.throttleObs, e.waitObs);
    var t := Render(c, s, e);
    assert t == Draw(c, u, e);
    IssuedByFrame(c, s, e);
    var waits := |t.waited| > |s.waited|;
    var k := BeginSlot(c, u.ring, e.beginObs);
    forall i | 0 <= i < |s.ring.slots|
      ensures k < 0 ==> s.ring.slots[i].active && !SeenBefore(c, s.ring.slots[i], e, i, waits)
      ensures i == k ==> !s.ring.slots[i].active || SeenBefore(c, s.ring.slots[i], e, i, waits)
      ensures s.ring.slots[i].active ==>
        (t.ring.slots[i] == s.ring.slots[i] <==>
             && !SeenBefore(c, s.ring.slots[i], e, i, waits)
             && ((c.offscreen || e.swapOk) ==> s.ring.slots[i].sequence > e.endObs[i].watermark))
    {
      ThrottleSlots(c, s, e, i);
      DrawSlots(c, u, e, i);
      if s.ring.slots[i].active { ActiveIsIssued(s.ring, i); }
    }
    if k >= 0 { assert !s.ring.slots[k].active || SeenBefore(c, s.ring.slots[k], e, k, waits); }
  }

  // ----------------------------------------------------------- what the samples are

  /** The queries whose reading counts: begun after the warm-up and read on a continuous
      clock. */
  function Kept(c: Config, readings: seq<Reading>): (qs: seq<nat>)
    ensures |qs| <= |readings|
  {
    if readings == [] then []
    else
      var rest, x := Kept(c, readings[..|readings| - 1]), readings[|readings| - 1];
      if !x.disjoint && x.startedSec >= c.warmupSec then rest + [x.sequence] else rest
  }

  /** The readings on a disjoint clock. */
  function Discards(readings: seq<Reading>): (n: nat)
    ensures n <= |readings|
  {
    if readings == [] then 0
    else Discards(readings[..|readings| - 1]) + if readings[|readings| - 1].disjoint then 1 else 0
  }

  /** The results of the queries, as far as the sample buffer goes. */
  function Results(c: Config, qs: seq<nat>): (s: seq<real>)
    ensures |s| == if |qs| <= MAX_SAMPLES then |qs| else MAX_SAMPLES
    ensures forall i | 0 <= i < |s| :: s[i] == c.elapsed(qs[i])
  {
    seq(if |qs| <= MAX_SAMPLES then |qs| else MAX_SAMPLES, i requires 0 <= i < |qs| => c.elapsed(qs[i]))
  }

  /** The samples and the counters that the history of readings calls for. */
  ghost predicate SamplesMatch(c: Config, r: Ring) {
    (r.samples, r.timerDiscarded, |r.begun|)
      == (Results(c, Kept(c, r.readings)), Discards(r.readings), r.timerSequence)
  }

  /** An active slot or a reading carries the time t for the query q. */
  predicate Carries(slots: seq<Slot>, readings: seq<Reading>, q: nat, t: real) {
    Slot(true, t, q) in slots || Reading(q, t, true) in readings || Reading(q, t, false) in readings
  }

  predicate BegunAt(begun: seq<real>, q: nat, t: real) {
    1 <= q <= |begun| && begun[q - 1] == t
  }

  /** Every active slot and every reading carries the time at which its query was begun. */
  ghost predicate TimesMatch(slots: seq<Slot>, readings: seq<Reading>, begun: seq<real>) {
    forall q: nat, t: real | Carries(slots, readings, q, t) :: BegunAt(begun, q, t)
  }

  ghost predicate Sampled(c: Config, r: Ring) {
    && SamplesMatch(c, r)
    && TimesMatch(r.slots, r.readings, r.begun)
  }

  lemma {:induction false} ReadingStep(c: Config, readings: seq<Reading>, x: Reading)
    ensures Kept(c, readings + [x])
         == if !x.disjoint && x.startedSec >= c.warmupSec then Kept(c, readings) + [x.sequence] else Kept(c, readings)
    ensures Discards(readings + [x]) == Discards(readings) + if x.disjoint then 1 else 0
  {
    assert (readings + [x])[..|readings|] == readings;
  }

  lemma {:induction false} SampleStep(c: Config, samples: seq<real>, readings: seq<Reading>, x: Reading)
    requires samples == Results(c, Kept(c, readings))
    ensures Results(c, Kept(c, readings + [x]))
         == if !x.disjoint && x.startedSec >= c.warmupSec && |samples| < MAX_SAMPLES
            then samples + [c.elapsed(x.sequence)] else samples
  {
    hide Kept;
    ReadingStep(c, readings, x);
  }

  /** A slot is read and freed. */
  lemma {:induction false} TimesStep(slots: seq<Slot>, readings: seq<Reading>, begun: seq<real>, i: nat, disjoint: bool)
    requires i < |slots| && slots[i].active && TimesMatch(slots, readings, begun)
    ensures TimesMatch(slots[i := slots[i].(active := false)],
                       readings + [Reading(slots[i].sequence, slots[i].startedSec, disjoint)], begun)
  {
    var x := Reading(slots[i].sequence, slots[i].startedSec, disjoint);
    var freed := slots[i := slots[i].(active := false)];
    forall q: nat, t: real | Carries(freed, readings + [x], q, t) ensures Carries(slots, readings, q, t) {
      assert Slot(true, t, q) in freed ==> Slot(true, t, q) in slots;
      assert Slot(true, slots[i].startedSec, slots[i].sequence) == slots[i];
    }
  }

  lemma {:induction false} SamplesUpTo(c: Config, r: Ring, k: nat, obs: seq<Observation>)
    requires k <= |r.slots| == |obs| && Sampled(c, r)
    ensures Sampled(c, PollUpTo(c, r, k, obs))
  {
    hide Kept, Discards, Results, TimesMatch;
    if k > 0 {
      var p, i, o := PollUpTo(c, r, k - 1, obs), k - 1, obs[k - 1];
      SamplesUpTo(c, r, i, obs);
      var slot := p.slots[i];
      if Retires(slot, o) {
        var x := Reading(slot.sequence, slot.startedSec, o.disjoint);
        ReadingStep(c, p.readings, x);
        SampleStep(c, p.samples, p.readings, x);
        TimesStep(p.slots, p.readings, p.begun, i, o.disjoint);
      }
    }
  }

  lemma {:induction false} ClaimKeepsSamples(c: Config, r: Ring, i: nat, now: real)
    requires i < |r.slots| && Sampled(c, r)
    ensures Sampled(c, Claim(r, i, now))
  {
    var p := Claim(r, i, now);
    forall q: nat, t: real | Carries(p.slots, p.readings, q, t) ensures BegunAt(p.begun, q, t) {
      if !(q == p.timerSequence && t == now) {
        assert Slot(true, t, q) in p.slots ==> Slot(true, t, q) in r.slots;
        assert Carries(r.slots, r.readings, q, t);
        assert BegunAt(r.begun, q, t);
      }
    }
  }

  lemma {:induction false} ThrottleKeepsSamples(c: Config, s: State, e: FrameEnv)
    requires FrameFits(s, e) && Sampled(c, s.ring)
    ensures Sampled(c, Throttle(c, s, e.throttleObs, e.waitObs).ring)
  {
    hide Sampled, Oldest, PollUpTo;
    var n, p := |s.ring.slots|, Poll(c, s.ring, e.throttleObs);
    SamplesUpTo(c, s.ring, n, e.throttleObs);
    SamplesUpTo(c, p, n, e.waitObs);
  }

  lemma {:induction false} DrawKeepsSamples(c: Config, s: State, e: FrameEnv)
    requires FrameFits(s, e) && Sampled(c, s.ring)
    ensures Sampled(c, Draw(c, s, e).ring)
  {
    hide Sampled, FirstFree, Claim, PollUpTo;
    SamplesUpTo(c, s.ring, |s.ring.slots|, e.beginObs);
    var i := BeginSlot(c, s.ring, e.beginObs);
    if i >= 0 { ClaimKeepsSamples(c, Poll(c, s.ring, e.beginObs), i, e.now); }
    SamplesUpTo(c, Begin(c, s, e.beginObs, e.now).ring, |s.ring.slots|, e.endObs);
  }

  lemma {:induction false} RunKeepsSamples(c: Config, s: State, es: seq<FrameEnv>)
    requires Initial(s) && AllFit(s, es)
    ensures Sampled(c, Run(c, s, es).ring)
  {
    if es != [] {
      hide Sampled, Throttle, Draw;
      var before, e := Run(c, s, es[..|es| - 1]), es[|es| - 1];
      RunKeepsSamples(c, s, es[..|es| - 1]);
      ThrottleKeepsSamples(c, before, e);
      DrawKeepsSamples(c, Throttle(c, before, e.throttleObs, e.waitObs), e);
    }
  }

  lemma {:induction false} KeptOrDiscarded(c: Config, readings: seq<Reading>)
    ensures |Kept(c, readings)| + Discards(readings) <= |readings|
  {
    if readings != [] { KeptOrDiscarded(c, readings[..|readings| - 1]); }
  }

  /** Over every run, through the end of the warm-up and with any pattern of disjoint
      readings: the samples are the results of exactly the queries begun after the warm-up
      and read on a continuous clock, in the order they were read, until the buffer is full;
      exactly the readings on a disjoint clock are discarded; no query is read twice. */
  lemma {:induction false} RunSamplesAreResults(c: Config, s: State, es: seq<FrameEnv>)
    requires Initial(s) && AllFit(s, es)
    ensures var r := Run(c, s, es).ring;
      && (r.samples, r.timerDiscarded, |Retired(r.readings)|, r.timerCompleted)
        == (Results(c, Kept(c, r.readings)), Discards(r.readings), |r.readings|, |r.readings|)
      && |r.samples| + r.timerDiscarded <= r.timerCompleted
      && forall i | 0 <= i < |r.readings| :: BegunAt(r.begun, r.readings[i].sequence, r.readings[i].startedSec)
  {
    RunKeepsSamples(c, s, es);
    RunKeepsInv(c, s, es);
    var r := Run(c, s, es).ring;
    LedgerOf(r);
    KeptOrDiscarded(c, r.readings);
    forall i | 0 <= i < |r.readings| ensures BegunAt(r.begun, r.readings[i].sequence, r.readings[i].startedSec) {
      var x := r.readings[i];
      assert x in r.readings && x == Reading(x.sequence, x.startedSec, x.disjoint);
      assert Carries(r.slots, r.readings, x.sequence, x.startedSec);
    }
  }

  // ------------------------------------------------------------------ the renderer itself

  class StressRenderer {
    const c: Config
    const slots: array<Slot>
    const gpuSamples: array<real>
    var gpuSampleCount: nat
    var timerSequence: nat
    var timerRingFull: nat
    var timerWaits: nat
    var timerCompleted: nat
    var timerDiscarded: nat
    var frame: nat
    var frameBackpressure: nat
    var finishCount: nat
    var offscreenSinceSync: nat
    var running: bool
    ghost var readings: seq<Reading>
    ghost var begun: seq<real>
    ghost var waited: seq<nat>

    ghost predicate Valid()
      reads this
    {
      gpuSamples.Length == MAX_SAMPLES && gpuSampleCount <= MAX_SAMPLES
    }

    ghost function Timers(): Ring
      reads this, slots, gpuSamples
      requires Valid()
    {
      Ring(slots[..], timerSequence, timerCompleted, timerDiscarded, gpuSamples[..gpuSampleCount], readings,
           begun)
    }

    ghost function View(): State
      reads this, slots, gpuSamples
      requires Valid()
    {
      State(Timers(), timerRingFull, timerWaits, frame, frameBackpressure, finishCount, offscreenSinceSync, running,
            waited)
    }

    constructor (c: Config, timerSlots: nat)
      ensures this.c == c && slots.Length == timerSlots && fresh(slots) && fresh(gpuSamples)
      ensures Valid() && Initial(View())
    {
      this.c := c;
      this.slots := new Slot[timerSlots](_ => Slot(false, 0.0, 0));
      this.gpuSamples := new real[MAX_SAMPLES];
      this.gpuSampleCount, this.timerSequence, this.timerRingFull, this.timerWaits := 0, 0, 0, 0;
      this.timerCompleted, this.timerDiscarded, this.frame, this.frameBackpressure := 0, 0, 0, 0;
      this.finishCount, this.offscreenSinceSync, this.running := 0, 0, true;
      this.readings, this.begun, this.waited := [], [], [];
    }

    /** The body of the polling loop: collect slot `i` if its result is available. */
    method CollectSlot(i: nat, o: Observation)
      requires Valid() && i < slots.Length
      modifies `timerCompleted, `timerDiscarded, `gpuSampleCount, `readings, slots, gpuSamples
      ensures Valid() && Timers() == PollSlot(c, old(Timers()), i, o)
    {
      var slot := slots[i];
      if !slot.active { return; }
      if o.watermark < slot.sequence { return; }
      timerCompleted := timerCompleted + 1;
      if !o.disjoint && slot.startedSec >= c.warmupSec && gpuSampleCount < MAX_SAMPLES {
        gpuSamples[gpuSampleCount] := c.elapsed(slot.sequence);
        gpuSampleCount := gpuSampleCount + 1;
      } else if o.disjoint {
        timerDiscarded := timerDiscarded + 1;
      }
      slots[i] := slot.(active := false);
      readings := readings + [Reading(slot.sequence, slot.startedSec, o.disjoint)];
    }

    method PollGpuTimers(obs: seq<Observation>)
      requires Valid() && |obs| == slots.Length
      modifies `timerCompleted, `timerDiscarded, `gpuSampleCount, `readings, slots, gpuSamples
      ensures Valid() && Timers() == Poll(c, old(Timers()), obs)
    {
      if !c.timed { return; }
      for i := 0 to slots.Length
        invariant Valid() && Timers() == PollUpTo(c, old(Timers()), i, obs)
      {
        CollectSlot(i, obs[i]);
      }
    }

    /** Slot `i` times the next query. */
    method ClaimSlot(i: nat, now: real)
      requires Valid() && i < slots.Length
      modifies `timerSequence, `begun, slots
      ensures Valid() && Timers() == Claim(old(Timers()), i, now)
    {
      timerSequence := timerSequence + 1;
      begun := begun + [now];
      slots[i] := Slot(true, now, timerSequence);
    }

    method BeginGpuTimer(obs: seq<Observation>, now: real) returns (slot: int)
      requires Valid() && |obs| == slots.Length
      modifies `timerCompleted, `timerDiscarded, `gpuSampleCount, `readings, slots, gpuSamples
      modifies `timerSequence, `begun, `timerRingFull
      ensures Valid() && View() == Begin(c, old(View()), obs, now)
      ensures slot == BeginSlot(c, old(Timers()), obs)
    {
      hide Poll;
      if !c.timed { return NO_SLOT; }
      PollGpuTimers(obs);
      for i := 0 to slots.Length
        invariant Valid() && View() == old(View()).(ring := Poll(c, old(Timers()), obs))
        invariant FirstFree(slots[..], 0) == FirstFree(slots[..], i)
      {
        if !slots[i].active {
          ClaimSlot(i, now);
          return i;
        }
      }
      timerRingFull := timerRingFull + 1;
      return NO_SLOT;
    }

    method SlotAvailable() returns (available: bool)
      ensures available <==> !Full(slots[..])
    {
      for i := 0 to slots.Length
        invariant FirstFree(slots[..], 0) == FirstFree(slots[..], i)
      {
        if !slots[i].active { return true; }
      }
      return false;
    }

    method FindOldest() returns (oldest: int)
      ensures oldest == Oldest(slots[..], slots.Length)
    {
      oldest := NO_SLOT;
      for i := 0 to slots.Length
        invariant oldest == Oldest(slots[..], i)
      {
        if slots[i].active && (oldest < 0 || slots[i].sequence < slots[oldest].sequence) { oldest := i; }
      }
    }

    /** The counters of a full ring, and the query to wait for. */
    method CountFullRing() returns (oldest: int)
      requires Valid()
      modifies `timerRingFull, `frameBackpressure, `timerWaits, `waited
      ensures Valid() && View() == CountFull(old(View()))
      ensures oldest == Oldest(slots[..], slots.Length)
    {
      timerRingFull := timerRingFull + 1;
      frameBackpressure := frameBackpressure + 1;
      oldest := FindOldest();
      if oldest >= 0 {
        timerWaits := timerWaits + 1;
        waited := waited + [slots[oldest].sequence];
      }
    }

    /** The blocking half of the throttle. */
    method WaitForOldest(waitObs: seq<Observation>)
      requires Valid() && |waitObs| == slots.Length
      modifies `timerCompleted, `timerDiscarded, `gpuSampleCount, `readings, slots, gpuSamples
      modifies `timerRingFull, `frameBackpressure, `timerWaits, `waited
      ensures Valid() && View() == Backpressure(c, old(View()), waitObs)
    {
      hide Poll, Oldest, CountFull;
      var oldest := CountFullRing();
      if oldest >= 0 { PollGpuTimers(waitObs); }
    }

    method ThrottleOffscreen(throttleObs: seq<Observation>, waitObs: seq<Observation>)
      requires Valid() && |throttleObs| == |waitObs| == slots.Length
      modifies this, slots, gpuSamples
      ensures Valid() && View() == Throttle(c, old(View()), throttleObs, waitObs)
    {
      if !c.offscreen { return; }
      if c.timed {
        PollGpuTimers(throttleObs);
        var slotAvailable := SlotAvailable();
        if !slotAvailable { WaitForOldest(waitObs); }
      } else if offscreenSinceSync >= c.offscreenBatch {
        finishCount := finishCount + 1;
        frameBackpressure := frameBackpressure + 1;
        offscreenSinceSync := 0;
      }
    }

    /** The timed half of render. */
    method DrawFrame(e: FrameEnv)
      requires Valid() && FrameFits(View(), e)
      modifies this, slots, gpuSamples
      ensures Valid() && View() == Draw(c, old(View()), e)
    {
      hide Poll, Begin, BeginSlot;
      var slot := BeginGpuTimer(e.beginObs, e.now);
      if !c.offscreen && !e.swapOk {
        running := false;
        return;
      }
      frame := frame + 1;
      if c.offscreen { offscreenSinceSync := offscreenSinceSync + 1; }
      PollGpuTimers(e.endObs);
    }

    /** The scheduling part of render; drawing itself is not part of this module. */
    method RenderFrame(e: FrameEnv)
      requires Valid() && FrameFits(View(), e)
      modifies this, slots, gpuSamples
      ensures Valid() && View() == Render(c, old(View()), e)
    {
      if !running || e.expired {
        running := false;
        return;
      }
      if !e.visible && !c.offscreen { return; }
      ThrottleOffscreen(e.throttleObs, e.waitObs);
      if e.targetMissing {
        running := false;
        return;
      }
      DrawFrame(e);
    }

    method FinishAndPoll(obs: seq<Observation>)
      requires Valid() && |obs| == slots.Length
      modifies this, slots, gpuSamples
      ensures Valid() && View() == DrainRound(c, old(View()), obs)
    {
      finishCount := finishCount + 1;
      PollGpuTimers(obs);
    }

    /** The finishes and polls at the end of the program. */
    method FinalDrain(polls: seq<seq<Observation>>)
      requires Valid() && |polls| == 5 && forall i | 0 <= i < |polls| :: |polls[i]| == slots.Length
      modifies this, slots, gpuSamples
      ensures Valid() && View() == DrainUpTo(c, old(View()), Rounds(c), polls)
    {
      FinishAndPoll(polls[0]);
      var i := 0;
      while i < 4 && c.timed
        invariant 0 <= i <= 4 && (!c.timed ==> i == 0)
        invariant Valid() && View() == DrainUpTo(c, old(View()), i + 1, polls)
      {
        FinishAndPoll(polls[i + 1]);
        i := i + 1;
      }
    }
  }
}
