/** The duplicate filter of the input router (native/webos_input.c). */
module DuplicateFilter {
  import opened Common

  const WINDOW_MS: nat := 20

  /** A key or button event; the time is a 32-bit counter of milliseconds, or any clock the
      counter is taken from. */
  datatype Stamp = Stamp(time: int, value: nat, state: nat)

  predicate SameEvent(a: Stamp, b: Stamp) {
    a.value == b.value && a.state == b.state
  }

  /** recent_duplicate: the difference is taken in unsigned 32-bit arithmetic. */
  predicate RecentDuplicate(e: Stamp, previous: Stamp) {
    SameEvent(e, previous) && (e.time - previous.time) % WORD <= WINDOW_MS
  }

  /** The events of a stream that are delivered: each one unless it is a recent duplicate
      of the last delivered one. */
  function Deliver(s: seq<Stamp>): (d: seq<Stamp>)
    ensures |d| <= |s|
  {
    if s == [] then []
    else
      var d := Deliver(s[..|s| - 1]);
      if Suppressed(d, s[|s| - 1]) then d else d + [s[|s| - 1]]
  }

  predicate Suppressed(delivered: seq<Stamp>, e: Stamp) {
    delivered != [] && RecentDuplicate(e, delivered[|delivered| - 1])
  }

  lemma {:induction false} DeliverStep(s: seq<Stamp>, e: Stamp)
    ensures Deliver(s + [e]) == if Suppressed(Deliver(s), e) then Deliver(s) else Deliver(s) + [e]
  {
    assert (s + [e])[..|s|] == s;
  }

  /** No delivered event is a recent duplicate of the one delivered before it. */
  lemma {:induction false} DeliveredAreFresh(s: seq<Stamp>, k: nat)
    requires k + 1 < |Deliver(s)|
    ensures !RecentDuplicate(Deliver(s)[k + 1], Deliver(s)[k])
  {
    if k + 1 < |Deliver(s[..|s| - 1])| { DeliveredAreFresh(s[..|s| - 1], k); }
  }

  /** Filtering twice is filtering once. */
  lemma {:induction false} DeliverIdempotent(s: seq<Stamp>)
    ensures Deliver(Deliver(s)) == Deliver(s)
  {
    FreshIsDelivered(s, |Deliver(s)|);
    assert Deliver(s)[..|Deliver(s)|] == Deliver(s);
  }

  lemma {:induction false} FreshIsDelivered(s: seq<Stamp>, n: nat)
    requires n <= |Deliver(s)|
    ensures Deliver(Deliver(s)[..n]) == Deliver(s)[..n]
  {
    if n > 0 {
      var d := Deliver(s);
      FreshIsDelivered(s, n - 1);
      assert d[..n][..n - 1] == d[..n - 1];
      if n > 1 { DeliveredAreFresh(s, n - 2); }
    }
  }

  function Twice(s: seq<Stamp>): seq<Stamp> {
    if s == [] then [] else Twice(s[..|s| - 1]) + [s[|s| - 1]] + [s[|s| - 1]]
  }

  lemma RepeatsItself(e: Stamp)
    ensures RecentDuplicate(e, e)
  {
  }

  /** Repeating every event with the same time stamp changes nothing. */
  lemma {:induction false} DeliverIgnoresRepeats(s: seq<Stamp>)
    ensures Deliver(Twice(s)) == Deliver(s)
  {
    hide RecentDuplicate;
    if s != [] {
      var t, e := Twice(s[..|s| - 1]), s[|s| - 1];
      DeliverIgnoresRepeats(s[..|s| - 1]);
      RepeatsItself(e);
      DeliverStep(t, e);
      DeliverStep(t + [e], e);
    }
  }

  // ----------------------------------------------------------------- against a clock

  /** Against a clock that has not advanced by 2^32 ms the wrapping test is exact. */
  lemma {:induction false} WrappingTestExact(e: Stamp, previous: Stamp)
    requires previous.time <= e.time < previous.time + WORD
    ensures RecentDuplicate(e, previous) <==> SameEvent(e, previous) && e.time - previous.time <= WINDOW_MS
  {
  }

  /** What the 32-bit counter shows of a clock. */
  function Counter(e: Stamp): Stamp { e.(time := e.time % WORD) }

  function Wrapped(s: seq<Stamp>): (r: seq<Stamp>)
    ensures |r| == |s|
    ensures forall i | 0 <= i < |s| :: r[i] == Counter(s[i])
  {
    seq(|s|, i requires 0 <= i < |s| => Counter(s[i]))
  }

  lemma {:induction false} WrapDifference(a: int, b: int)
    ensures (a % WORD - b % WORD) % WORD == (a - b) % WORD
  {
  }

  lemma {:induction false} CounterComparesAlike(e: Stamp, previous: Stamp)
    ensures RecentDuplicate(Counter(e), Counter(previous)) == RecentDuplicate(e, previous)
  {
    WrapDifference(e.time, previous.time);
  }

  lemma {:induction false} CounterSuppressesAlike(d: seq<Stamp>, e: Stamp)
    ensures Suppressed(Wrapped(d), Counter(e)) == Suppressed(d, e)
  {
    hide RecentDuplicate, Counter;
    if d != [] { CounterComparesAlike(e, d[|d| - 1]); }
  }

  lemma WrappedStep(s: seq<Stamp>, e: Stamp)
    ensures Wrapped(s + [e]) == Wrapped(s) + [Counter(e)]
  {
    hide Counter;
  }

  /** Reducing every time to the counter beforehand changes nothing, as the test compares
      modulo 2^32 anyway. */
  lemma {:induction false} DeliverOfCounter(s: seq<Stamp>)
    ensures Deliver(Wrapped(s)) == Wrapped(Deliver(s))
  {
    hide Suppressed, Counter;
    if s != [] {
      var t, e := s[..|s| - 1], s[|s| - 1];
      DeliverOfCounter(t);
      assert s == t + [e];
      WrappedStep(t, e);
      DeliverStep(Wrapped(t), Counter(e));
      DeliverStep(t, e);
      CounterSuppressesAlike(Deliver(t), e);
      WrappedStep(Deliver(t), e);
    }
  }

  ghost predicate Monotone(s: seq<Stamp>) {
    forall i, j | 0 <= i < j < |s| :: s[i].time <= s[j].time
  }

  lemma {:induction false} DeliveredMonotone(s: seq<Stamp>)
    requires Monotone(s)
    ensures Monotone(Deliver(s))
    ensures forall i | 0 <= i < |Deliver(s)| :: s != [] && Deliver(s)[i].time <= s[|s| - 1].time
  {
    if s != [] { DeliveredMonotone(s[..|s| - 1]); }
  }

  lemma {:induction false} PrefixMonotone(s: seq<Stamp>, e: Stamp)
    requires Monotone(s + [e])
    ensures Monotone(s)
    ensures forall i | 0 <= i < |s| :: s[i].time <= e.time
  {
    forall i, j | 0 <= i <= j < |s| ensures s[i].time <= s[j].time <= e.time {
      assert (s + [e])[i] == s[i] && (s + [e])[j] == s[j] && (s + [e])[|s|] == e;
    }
  }

  /** An event that repeats a delivered one within the window is suppressed exactly when
      the delivery last made is a twin of it: only that one is remembered. */
  lemma {:induction false} SuppressedIffLastIsTwin(s: seq<Stamp>, e: Stamp, i: nat)
    requires Monotone(s + [e]) && i < |Deliver(s)|
    requires SameEvent(Deliver(s)[i], e) && e.time - Deliver(s)[i].time <= WINDOW_MS
    ensures Suppressed(Deliver(s), e) <==> SameEvent(Deliver(s)[|Deliver(s)| - 1], e)
  {
    PrefixMonotone(s, e);
    DeliveredMonotone(s);
    var d := Deliver(s);
    assert d[i].time <= d[|d| - 1].time <= s[|s| - 1].time <= e.time;
    WrappingTestExact(e, d[|d| - 1]);
  }

  /** Twins are delivered twice within the window only around a different event. */
  lemma {:induction false} TwinsAreInterrupted(s: seq<Stamp>, i: nat, j: nat)
    requires Monotone(s) && i < j < |Deliver(s)|
    requires SameEvent(Deliver(s)[i], Deliver(s)[j])
    requires Deliver(s)[j].time - Deliver(s)[i].time <= WINDOW_MS
    ensures exists k | i < k < j :: !SameEvent(Deliver(s)[k], Deliver(s)[i])
  {
    var d := Deliver(s);
    DeliveredMonotone(s);
    DeliveredAreFresh(s, i);
    assert d[i].time <= d[i + 1].time <= d[j].time;
    WrappingTestExact(d[i + 1], d[i]);
    assert !SameEvent(d[i + 1], d[i]);
  }

  // ------------------------------------------------- against the filter on the clock

  /** The filter the window is meant to be: by the time that has really passed. */
  predicate SuppressedByClock(delivered: seq<Stamp>, e: Stamp) {
    delivered != []
    && SameEvent(e, delivered[|delivered| - 1])
    && e.time - delivered[|delivered| - 1].time <= WINDOW_MS
  }

  function DeliverByClock(s: seq<Stamp>): (d: seq<Stamp>)
    ensures |d| <= |s|
    ensures forall i | 0 <= i < |d| :: d[i] in s
  {
    if s == [] then []
    else
      var d := DeliverByClock(s[..|s| - 1]);
      if SuppressedByClock(d, s[|s| - 1]) then d else d + [s[|s| - 1]]
  }

  lemma {:induction false} DeliverByClockStep(s: seq<Stamp>, e: Stamp)
    ensures DeliverByClock(s + [e])
         == if SuppressedByClock(DeliverByClock(s), e) then DeliverByClock(s) else DeliverByClock(s) + [e]
  {
    assert (s + [e])[..|s|] == s;
  }

  /** The counter has come round: a twin of the last delivered event arrives at least 2^32 ms
      after it, yet within the window of it modulo 2^32. */
  predicate ComesRound(delivered: seq<Stamp>, e: Stamp) {
    delivered != []
    && SameEvent(e, delivered[|delivered| - 1])
    && e.time - delivered[|delivered| - 1].time >= WORD
    && (e.time - delivered[|delivered| - 1].time) % WORD <= WINDOW_MS
  }

  /** On one event the two filters differ exactly when the counter has come round. */
  lemma {:induction false} SuppressedDiffersIff(delivered: seq<Stamp>, e: Stamp)
    requires delivered != [] ==> delivered[|delivered| - 1].time <= e.time
    ensures (Suppressed(delivered, e) == SuppressedByClock(delivered, e)) <==> !ComesRound(delivered, e)
  {
    if delivered != [] && e.time - delivered[|delivered| - 1].time < WORD {
      WrappingTestExact(e, delivered[|delivered| - 1]);
    }
  }

  /** Up to every point of the stream the two filters have delivered the same. */
  ghost predicate AgreesWithClock(s: seq<Stamp>) {
    forall n: nat | n <= |s| :: Deliver(s[..n]) == DeliverByClock(s[..n])
  }

  ghost predicate NeverComesRound(s: seq<Stamp>) {
    forall n: nat | n < |s| :: !ComesRound(DeliverByClock(s[..n]), s[n])
  }

  lemma {:induction false} LastIsEarlier(s: seq<Stamp>, n: nat)
    requires Monotone(s) && n < |s|
    ensures var d := DeliverByClock(s[..n]); d != [] ==> s[0].time <= d[|d| - 1].time <= s[n].time
  {
    var d := DeliverByClock(s[..n]);
    if d != [] {
      var k :| 0 <= k < n && s[..n][k] == d[|d| - 1];
      assert s[k] == d[|d| - 1];
    }
  }

  lemma {:induction false} AgreesUpTo(s: seq<Stamp>, n: nat)
    requires Monotone(s) && n <= |s| && NeverComesRound(s)
    ensures Deliver(s[..n]) == DeliverByClock(s[..n])
  {
    hide Suppressed, SuppressedByClock, ComesRound, Deliver, DeliverByClock;
    if n > 0 {
      AgreesUpTo(s, n - 1);
      assert s[..n] == s[..n - 1] + [s[n - 1]];
      DeliverStep(s[..n - 1], s[n - 1]);
      DeliverByClockStep(s[..n - 1], s[n - 1]);
      LastIsEarlier(s, n - 1);
      SuppressedDiffersIff(DeliverByClock(s[..n - 1]), s[n - 1]);
    } else {
      NothingDelivered();
      assert s[..0] == [];
    }
  }

  lemma NothingDelivered()
    ensures Deliver([]) == DeliverByClock([]) == []
  {
  }

  /** For every stream on a clock that does not go back: the filter on the 32-bit difference
      agrees with the filter on the clock exactly when the counter never comes round. */
  lemma {:induction false} AgreesWithClockIff(s: seq<Stamp>)
    requires Monotone(s)
    ensures AgreesWithClock(s) <==> NeverComesRound(s)
  {
    hide Suppressed, SuppressedByClock, ComesRound, Deliver, DeliverByClock;
    if NeverComesRound(s) {
      forall n: nat | n <= |s| ensures Deliver(s[..n]) == DeliverByClock(s[..n]) { AgreesUpTo(s, n); }
    }
    if AgreesWithClock(s) {
      forall n: nat | n < |s| ensures !ComesRound(DeliverByClock(s[..n]), s[n]) {
        assert s[..n + 1] == s[..n] + [s[n]];
        assert Deliver(s[..n]) == DeliverByClock(s[..n]) && Deliver(s[..n + 1]) == DeliverByClock(s[..n + 1]);
        DeliverStep(s[..n], s[n]);
        DeliverByClockStep(s[..n], s[n]);
        LastIsEarlier(s, n);
        SuppressedDiffersIff(DeliverByClock(s[..n]), s[n]);
      }
    }
  }

  /** In particular on every stream that spans less than 2^32 ms. The router, which sees only
      the counter, then delivers the events the clock would. */
  lemma {:induction false} CounterFollowsClock(s: seq<Stamp>)
    requires Monotone(s)
    requires s != [] ==> s[|s| - 1].time - s[0].time < WORD
    ensures (Deliver(s), Deliver(Wrapped(s))) == (DeliverByClock(s), Wrapped(DeliverByClock(s)))
  {
    hide Deliver, DeliverByClock;
    forall n: nat | n < |s| ensures !ComesRound(DeliverByClock(s[..n]), s[n]) {
      LastIsEarlier(s, n);
      assert s[n].time <= s[|s| - 1].time;
    }
    AgreesUpTo(s, |s|);
    assert s[..|s|] == s;
    DeliverOfCounter(s);
  }

  lemma ExactlyRound(a: Stamp, b: Stamp)
    requires SameEvent(a, b) && b.time - a.time == WORD
    ensures !Suppressed([], a) && !SuppressedByClock([], a)
    ensures Suppressed([a], b) && !SuppressedByClock([a], b)
  {
    assert [a][|[a]| - 1] == a;
    assert WORD % WORD == 0;
  }

  /** The bound is sharp: a twin exactly 2^32 ms later is suppressed on the counter. */
  lemma CounterComesRound(a: Stamp, b: Stamp)
    requires SameEvent(a, b) && b.time - a.time == WORD
    ensures Deliver([a, b]) == [a] && DeliverByClock([a, b]) == [a, b]
  {
    hide *;
    ExactlyRound(a, b);
    NothingDelivered();
    DeliverStep([], a);
    DeliverByClockStep([], a);
    DeliverStep([a], b);
    DeliverByClockStep([a], b);
    assert [] + [a] == [a] && [a] + [b] == [a, b];
  }

  /** A press repeated by a second device after the release is therefore delivered again,
      although it repeats an event of two milliseconds before. */
  lemma InterleavedRepeatIsDelivered()
    ensures var s := [Stamp(0, 28, 1), Stamp(1, 28, 0), Stamp(2, 28, 1), Stamp(3, 28, 0)];
      Deliver(s) == s
  {
    var s := [Stamp(0, 28, 1), Stamp(1, 28, 0), Stamp(2, 28, 1), Stamp(3, 28, 0)];
    DeliverStep([], s[0]);
    DeliverStep([s[0]], s[1]);
    DeliverStep([s[0], s[1]], s[2]);
    DeliverStep([s[0], s[1], s[2]], s[3]);
    assert [] + [s[0]] == [s[0]];
    assert [s[0]] + [s[1]] == [s[0], s[1]];
    assert [s[0], s[1]] + [s[2]] == [s[0], s[1], s[2]];
    assert [s[0], s[1], s[2]] + [s[3]] == s;
  }
}
