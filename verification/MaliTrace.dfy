/** record_event under concurrency (tools/mali_trace/mali_trace.c): any number of threads claim slots
    with an atomic fetch-and-add and then fill their slot field by field, or count a drop. */
module MaliTrace {
  import opened Common
  import opened TraceEvents

  /** Every atomic increment and every field store is a step of its own. A call in progress: the
      slot it claimed, what it stores, the fields stored so far. */
  datatype Call = Call(slot: nat, event: TraceEvent, done: nat)

  /** History of one claim: the thread, its event and how much of it is stored. */
  datatype Claim = Claim(thread: nat, event: TraceEvent, done: nat)

  /** `cells` is the event array, by slot and field; `calls` holds the threads that are
      inside record_event; `log` is history: the claims in the order they were made. */
  datatype State = State(
    eventCount: nat,
    dropped: nat,
    cells: map<(nat, nat), int>,
    calls: map<nat, Call>,
    log: seq<Claim>)

  datatype Step =
    | Enter(thread: nat, event: TraceEvent)
    | Store(thread: nat)
    | Drop(thread: nat)
    | Return(thread: nat)

  predicate Enabled(s: State, p: Step) {
    match p
    case Enter(t, _) => t !in s.calls
    case Store(t) => t in s.calls && s.calls[t].slot < CAPACITY && s.calls[t].done < FIELDS
    case Drop(t) => t in s.calls && s.calls[t].slot >= CAPACITY
    case Return(t) => t in s.calls && s.calls[t].slot < CAPACITY && s.calls[t].done == FIELDS
  }

  function EnterStep(s: State, t: nat, e: TraceEvent): State {
    s.(eventCount := (s.eventCount + 1) % WORD,
       calls := s.calls[t := Call(s.eventCount, e, 0)],
       log := s.log + [Claim(t, e, 0)])
  }

  /** The history is updated at the claim that the slot number stands for. */
  function StoreStep(s: State, t: nat): State
    requires Enabled(s, Store(t))
  {
    var c := s.calls[t];
    s.(cells := s.cells[(c.slot, c.done) := Fields(c.event)[c.done]],
       calls := s.calls[t := c.(done := c.done + 1)],
       log := if c.slot < |s.log| then s.log[c.slot := s.log[c.slot].(done := c.done + 1)] else s.log)
  }

  function Next(s: State, p: Step): State
    requires Enabled(s, p)
  {
    match p
    case Enter(t, e) => EnterStep(s, t, e)
    case Store(t) => StoreStep(s, t)
    case Drop(t) => s.(dropped := s.dropped + 1, calls := s.calls - {t})
    case Return(t) => s.(calls := s.calls - {t})
  }

  const START := State(0, 0, map[], map[], [])

  ghost predicate IsRun(rs: seq<State>, ps: seq<Step>) {
    && |rs| == |ps| + 1
    && rs[0] == START
    && forall k | 0 <= k < |ps| :: Enabled(rs[k], ps[k]) && rs[k + 1] == Next(rs[k], ps[k])
  }

  predicate Quiescent(s: State) { s.calls == map[] }

  function Claimed(log: seq<Claim>): (es: seq<TraceEvent>)
    ensures |es| == |log|
  {
    seq(|log|, i requires 0 <= i < |log| => log[i].event)
  }

  // --------------------------------------------------------------- the invariant

  /** Each call in progress is a claim of its thread, and the claim knows its progress. */
  ghost predicate CallsMatchLog(s: State) {
    forall t | t in s.calls ::
      && s.calls[t].slot < |s.log|
      && s.log[s.calls[t].slot] == Claim(t, s.calls[t].event, s.calls[t].done)
      && s.calls[t].done <= (if s.calls[t].slot < CAPACITY then FIELDS else 0)
  }

  /** A claim whose slot is not complete is still being filled by its thread. */
  ghost predicate Unfinished(s: State) {
    forall k | 0 <= k < |s.log| && k < CAPACITY ::
      s.log[k].done == FIELDS || (s.log[k].thread in s.calls && s.calls[s.log[k].thread].slot == k)
  }

  /** The array holds exactly what the claims have stored. */
  ghost predicate CellsMatchLog(s: State) {
    && (forall k, f | (k, f) in s.cells ::
      k < |s.log| && k < CAPACITY && f < s.log[k].done && f < FIELDS && s.cells[(k, f)] == Fields(s.log[k].event)[f])
    && forall k, f: nat | 0 <= k < |s.log| && k < CAPACITY && f < s.log[k].done :: (k, f) in s.cells
  }

  ghost function Dropping(s: State): set<nat> {
    set t | t in s.calls && s.calls[t].slot >= CAPACITY
  }

  ghost predicate DropsCounted(s: State) {
    s.dropped + |Dropping(s)| == |s.log| - Min(|s.log|, CAPACITY)
  }

  ghost predicate Inv(s: State) {
    && |s.log| <= WORD
    && s.eventCount == |s.log| % WORD
    && CallsMatchLog(s)
    && Unfinished(s)
    && CellsMatchLog(s)
    && DropsCounted(s)
  }

  lemma {:induction false} EnterMatchesLog(s: State, t: nat, e: TraceEvent)
    requires CallsMatchLog(s) && Unfinished(s) && t !in s.calls && s.eventCount == |s.log|
    ensures CallsMatchLog(EnterStep(s, t, e)) && Unfinished(EnterStep(s, t, e))
  {
  }

  lemma {:induction false} EnterKeepsCells(s: State, t: nat, e: TraceEvent)
    requires CellsMatchLog(s)
    ensures CellsMatchLog(EnterStep(s, t, e))
  {
    hide Fields;
    var r := EnterStep(s, t, e);
    assert forall k | 0 <= k < |s.log| :: r.log[k] == s.log[k];
    assert r.log[|s.log|].done == 0;
  }

  lemma {:induction false} EnterCountsDrops(s: State, t: nat, e: TraceEvent)
    requires DropsCounted(s) && t !in s.calls && s.eventCount == |s.log|
    ensures DropsCounted(EnterStep(s, t, e))
  {
    var r := EnterStep(s, t, e);
    assert Dropping(r) == if |s.log| >= CAPACITY then Dropping(s) + {t} else Dropping(s);
    assert t !in Dropping(s);
  }

  lemma {:induction false} EnterKeepsInv(s: State, t: nat, e: TraceEvent)
    requires Inv(s) && t !in s.calls && |s.log| < WORD
    ensures Inv(EnterStep(s, t, e))
  {
    hide CallsMatchLog, Unfinished, CellsMatchLog, DropsCounted;
    EnterMatchesLog(s, t, e);
    EnterKeepsCells(s, t, e);
    EnterCountsDrops(s, t, e);
  }

  lemma {:induction false} StoreKeepsInv(s: State, t: nat)
    requires Inv(s) && Enabled(s, Store(t))
    ensures Inv(StoreStep(s, t))
    ensures (s.calls[t].slot, s.calls[t].done) !in s.cells
  {
    hide Fields;
    var r := StoreStep(s, t);
    assert Dropping(r) == Dropping(s);
  }

  lemma {:induction false} DropKeepsInv(s: State, t: nat)
    requires Inv(s) && Enabled(s, Drop(t))
    ensures Inv(Next(s, Drop(t)))
  {
    hide Fields;
    var r := Next(s, Drop(t));
    assert Dropping(r) == Dropping(s) - {t};
  }

  lemma {:induction false} ReturnKeepsInv(s: State, t: nat)
    requires Inv(s) && Enabled(s, Return(t))
    ensures Inv(Next(s, Return(t)))
  {
    hide Fields;
    var r := Next(s, Return(t));
    assert Dropping(r) == Dropping(s);
  }

  lemma {:induction false} NextKeepsInv(s: State, p: Step)
    requires Inv(s) && Enabled(s, p) && |Next(s, p).log| <= WORD
    ensures Inv(Next(s, p))
  {
    hide Inv;
    match p
    case Enter(t, e) =>
      assert |s.log| < WORD;
      EnterKeepsInv(s, t, e);
    case Store(t) => StoreKeepsInv(s, t);
    case Drop(t) => DropKeepsInv(s, t);
    case Return(t) => ReturnKeepsInv(s, t);
  }

  lemma {:induction false} RunKeepsInv(rs: seq<State>, ps: seq<Step>)
    requires IsRun(rs, ps) && |rs[|ps|].log| <= WORD
    ensures forall k | 0 <= k < |rs| :: Inv(rs[k])
  {
    if ps == [] {
      assert Dropping(START) == {};
    } else {
      var n := |ps| - 1;
      hide Inv;
      assert |rs[n].log| <= |rs[n + 1].log|;
      RunKeepsInv(rs[..n + 1], ps[..n]);
      NextKeepsInv(rs[n], ps[n]);
      assert forall k | 0 <= k <= n :: rs[..n + 1][k] == rs[k];
    }
  }

  // ------------------------------------------------------------------- theorems

  /** In any interleaving of up to 2^32 calls no two threads ever hold the same slot. */
  lemma {:induction false} SlotsAreExclusive(rs: seq<State>, ps: seq<Step>, t: nat, u: nat)
    requires IsRun(rs, ps) && |rs[|ps|].log| <= WORD
    requires t in rs[|ps|].calls && u in rs[|ps|].calls && t != u
    ensures rs[|ps|].calls[t].slot != rs[|ps|].calls[u].slot
  {
    RunKeepsInv(rs, ps);
  }

  /** Nor is any field of the array stored twice: each store goes to one not written before. */
  lemma {:induction false} StoresOnce(rs: seq<State>, ps: seq<Step>, t: nat)
    requires IsRun(rs, ps) && |rs[|ps|].log| <= WORD && Enabled(rs[|ps|], Store(t))
    ensures (rs[|ps|].calls[t].slot, rs[|ps|].calls[t].done) !in rs[|ps|].cells
  {
    RunKeepsInv(rs, ps);
    StoreKeepsInv(rs[|ps|], t);
  }

  /** Slot k holds the first n fields of the event e and no others. */
  ghost predicate HoldsFirst(cells: map<(nat, nat), int>, k: nat, e: TraceEvent, n: nat) {
    forall f: nat :: ((k, f) in cells <==> f < n && f < FIELDS) && ((k, f) in cells ==> cells[(k, f)] == Fields(e)[f])
  }

  /** At every moment, with any calls in progress: a claim below the capacity is stored as far
      as its thread has come. Either all of it is, or the thread that made it is still inside
      its call and holds the slot. Slots beyond the claims are untouched. */
  lemma {:induction false} StoredSoFar(rs: seq<State>, ps: seq<Step>, k: nat)
    requires IsRun(rs, ps) && |rs[|ps|].log| <= WORD && k < CAPACITY
    ensures var s := rs[|ps|];
      if k < |s.log| then
        && HoldsFirst(s.cells, k, s.log[k].event, s.log[k].done)
        && s.log[k].done <= FIELDS
        && (s.log[k].done < FIELDS ==>
              s.log[k].thread in s.calls && s.calls[s.log[k].thread] == Call(k, s.log[k].event, s.log[k].done))
      else forall f: nat :: (k, f) !in s.cells
  {
    hide Fields;
    RunKeepsInv(rs, ps);
    var s := rs[|ps|];
    if k < |s.log| {
      if s.log[k].done != FIELDS { assert s.log[k].thread in s.calls; }
    }
  }

  /** Slot k of the array holds the event e, all of it. */
  ghost predicate Holds(cells: map<(nat, nat), int>, k: nat, e: TraceEvent) {
    forall f: nat | f < FIELDS :: (k, f) in cells && cells[(k, f)] == Fields(e)[f]
  }

  /** Whenever no call is in progress, the array and the counter are those of recording the
      claimed events one after another in the order of their claims. */
  lemma {:induction false} QuiescentIsSequential(rs: seq<State>, ps: seq<Step>)
    requires IsRun(rs, ps) && |rs[|ps|].log| <= WORD && Quiescent(rs[|ps|])
    ensures var s := rs[|ps|]; var t := RecordAll(Claimed(s.log));
      && (s.dropped, |s.log|) == (t.dropped, |t.stored| + t.dropped)
      && (forall k | 0 <= k < |t.stored| :: Holds(s.cells, k, t.stored[k]))
      && (forall k, f | (k, f) in s.cells :: k < |t.stored| && f < FIELDS)
  {
    hide Fields, RecordAll;
    RunKeepsInv(rs, ps);
    var s := rs[|ps|];
    StoredIsPrefix(Claimed(s.log));
    assert Dropping(s) == {};
  }

  // ------------------------------------------------------------ the file header

  /** The dropped field flush_trace_file writes. */
  function HeaderDropped(s: State): nat {
    s.dropped + if s.eventCount > CAPACITY then s.eventCount - CAPACITY else 0
  }

  /** At rest it is the number of events lost exactly when the counter does not exceed the
      capacity; otherwise it is twice that number. */
  lemma {:induction false} HeaderCountsLossIff(rs: seq<State>, ps: seq<Step>)
    requires IsRun(rs, ps) && |rs[|ps|].log| <= WORD && Quiescent(rs[|ps|])
    ensures var s := rs[|ps|]; var lost := |s.log| - |RecordAll(Claimed(s.log)).stored|;
      (HeaderDropped(s), HeaderDropped(s) == lost)
        == (if s.eventCount <= CAPACITY then lost else 2 * lost, s.eventCount <= CAPACITY)
  {
    QuiescentIsSequential(rs, ps);
    RunKeepsInv(rs, ps);
  }

  /** At any moment, calls in progress or not, it is the number of claims past the capacity
      exactly as long as no drop has been counted. */
  lemma {:induction false} HeaderAnytimeIff(rs: seq<State>, ps: seq<Step>)
    requires IsRun(rs, ps) && |rs[|ps|].log| < WORD
    ensures var s := rs[|ps|]; var past := |s.log| - Min(|s.log|, CAPACITY);
      && s.dropped <= past
      && (HeaderDropped(s), HeaderDropped(s) == past) == (s.dropped + past, s.dropped == 0)
  {
    RunKeepsInv(rs, ps);
  }

  // ------------------------------------------------------------ runs of whole calls

  lemma Extend(rs: seq<State>, ps: seq<Step>, p: Step) returns (qs: seq<State>, os: seq<Step>)
    requires IsRun(rs, ps) && Enabled(rs[|ps|], p)
    ensures IsRun(qs, os) && qs[|os|] == Next(rs[|ps|], p)
  {
    hide Next, Enabled;
    qs, os := rs + [Next(rs[|ps|], p)], ps + [p];
    forall k | 0 <= k < |os| ensures Enabled(qs[k], os[k]) && qs[k + 1] == Next(qs[k], os[k]) {
      if k < |ps| { assert qs[k] == rs[k] && qs[k + 1] == rs[k + 1] && os[k] == ps[k]; }
    }
  }

  /** A thread that is alone inside a call can finish it. */
  lemma {:induction false} FinishCall(rs: seq<State>, ps: seq<Step>, t: nat) returns (qs: seq<State>, os: seq<Step>)
    requires IsRun(rs, ps) && rs[|ps|].calls.Keys == {t} && rs[|ps|].calls[t].done <= FIELDS
    ensures IsRun(qs, os) && Quiescent(qs[|os|]) && |qs[|os|].log| == |rs[|ps|].log|
    decreases FIELDS - rs[|ps|].calls[t].done
  {
    var s := rs[|ps|];
    if s.calls[t].slot >= CAPACITY {
      qs, os := Extend(rs, ps, Drop(t));
      assert s.calls - {t} == map[];
    } else if s.calls[t].done == FIELDS {
      qs, os := Extend(rs, ps, Return(t));
      assert s.calls - {t} == map[];
    } else {
      var us, vs := Extend(rs, ps, Store(t));
      assert us[|vs|].calls.Keys == {t};
      qs, os := FinishCall(us, vs, t);
    }
  }

  /** There is a run of any number of whole calls. */
  lemma {:induction false} WholeCalls(n: nat, e: TraceEvent) returns (rs: seq<State>, ps: seq<Step>)
    ensures IsRun(rs, ps) && Quiescent(rs[|ps|]) && |rs[|ps|].log| == n
  {
    if n == 0 {
      rs, ps := [START], [];
    } else {
      var us, vs := WholeCalls(n - 1, e);
      var ws, xs := Extend(us, vs, Enter(0, e));
      assert ws[|xs|].calls.Keys == {0};
      rs, ps := FinishCall(ws, xs, 0);
    }
  }

  /** So the header is wrong for every number of calls past the capacity that the counter can
      hold: one event too many and it already reports two. */
  lemma {:induction false} HeaderDoubles(n: nat, e: TraceEvent) returns (rs: seq<State>, ps: seq<Step>)
    requires CAPACITY < n < WORD
    ensures IsRun(rs, ps) && Quiescent(rs[|ps|]) && |rs[|ps|].log| == n
    ensures rs[|ps|].dropped == n - CAPACITY && HeaderDropped(rs[|ps|]) == 2 * (n - CAPACITY)
  {
    rs, ps := WholeCalls(n, e);
    hide IsRun, RecordAll;
    CounterWraps(rs, ps);
    QuiescentIsSequential(rs, ps);
    StoredIsPrefix(Claimed(rs[|ps|].log));
  }

  // ------------------------------------------------------------- beyond 2^32

  /** Without the bound on the number of calls, the slot a call is given is its claim number
      modulo 2^32. */
  lemma {:induction false} CounterWraps(rs: seq<State>, ps: seq<Step>)
    requires IsRun(rs, ps)
    ensures rs[|ps|].eventCount == |rs[|ps|].log| % WORD
  {
    if ps != [] { CounterWraps(rs[..|ps|], ps[..|ps| - 1]); }
  }

  /** So calls that enter at two points of a run are given the same slot exactly when their
      claim numbers differ by a multiple of 2^32. */
  lemma {:induction false} SlotSharedIff(rs: seq<State>, ps: seq<Step>, i: nat, j: nat)
    requires IsRun(rs, ps) && i < j < |ps| && ps[i].Enter? && ps[j].Enter?
    ensures rs[i + 1].calls[ps[i].thread].slot == rs[j + 1].calls[ps[j].thread].slot
      <==> (|rs[j].log| - |rs[i].log|) % WORD == 0
  {
    CounterWraps(rs[..i + 1], ps[..i]);
    CounterWraps(rs[..j + 1], ps[..j]);
    LogGrows(rs, ps, i, j);
    Congruent(|rs[i].log|, |rs[j].log|);
  }

  lemma {:induction false} LogGrows(rs: seq<State>, ps: seq<Step>, i: nat, j: nat)
    requires IsRun(rs, ps) && i <= j <= |ps|
    ensures |rs[i].log| <= |rs[j].log|
  {
    if i < j {
      LogGrows(rs, ps, i, j - 1);
      assert rs[j - 1 + 1] == Next(rs[j - 1], ps[j - 1]);
    }
  }

  lemma Congruent(a: nat, b: nat)
    ensures a % WORD == b % WORD <==> (b - a) % WORD == 0
  {
  }
}
