/** The multi-seat input router (native/webos_input.c, state in native/webos_input.h).
    Wayland core protocol, interfaces wl_seat, wl_pointer and wl_keyboard: events arrive
    only on live proxies. */
module InputRouter {
  import opened Common
  import opened DuplicateFilter

  const MAX_SEATS: nat := 8

  /** bound, pointer and keyboard tell whether the proxies exist. */
  datatype Seat = Seat(
    bound: bool, pointer: bool, keyboard: bool, registryName: nat, index: nat,
    x: int, y: int, pointerFocused: bool, keyboardFocused: bool)

  const ZERO := Seat(false, false, false, 0, 0, 0, 0, false, false)

  /** What the application's callbacks are told. */
  datatype Note =
    | PointerEntered(x: int, y: int)
    | PointerLeft
    | PointerMoved(x: int, y: int)
    | ButtonChanged(button: nat, state: nat, x: int, y: int)
    | KeyboardFocus(focused: bool)
    | KeyChanged(key: nat, state: nat)

  /** `log` is history: the callbacks made, in order. */
  datatype Router = Router(
    seats: seq<Seat>,
    seatCount: nat,
    pointerFocusCount: nat,
    keyboardFocusCount: nat,
    lastKey: Option<Stamp>,
    lastButton: Option<Stamp>,
    log: seq<Note>)

  // ---------------------------------------------------------------- specification

  function Decrement(n: nat): nat { if n > 0 then n - 1 else n }

  function ClearPointerFocus(r: Router, i: nat): (s: Router)
    requires i < |r.seats|
    ensures |s.seats| == |r.seats|
  {
    var was := r.seats[i].pointerFocused;
    var n := if was then Decrement(r.pointerFocusCount) else r.pointerFocusCount;
    r.(seats := r.seats[i := r.seats[i].(pointerFocused := false)],
       pointerFocusCount := n,
       log := if was && n == 0 then r.log + [PointerLeft] else r.log)
  }

  function ClearKeyboardFocus(r: Router, i: nat): (s: Router)
    requires i < |r.seats|
    ensures |s.seats| == |r.seats|
  {
    var was := r.seats[i].keyboardFocused;
    var n := if was then Decrement(r.keyboardFocusCount) else r.keyboardFocusCount;
    r.(seats := r.seats[i := r.seats[i].(keyboardFocused := false)],
       keyboardFocusCount := n,
       log := if was && n == 0 then r.log + [KeyboardFocus(false)] else r.log)
  }

  function PointerEnter(r: Router, i: nat, x: int, y: int): Router
    requires i < |r.seats|
  {
    r.(seats := r.seats[i := r.seats[i].(x := x, y := y, pointerFocused := true)],
       pointerFocusCount := if r.seats[i].pointerFocused then r.pointerFocusCount else r.pointerFocusCount + 1,
       log := r.log + [PointerEntered(x, y)])
  }

  function PointerMotion(r: Router, i: nat, x: int, y: int): Router
    requires i < |r.seats|
  {
    r.(seats := r.seats[i := r.seats[i].(x := x, y := y)], log := r.log + [PointerMoved(x, y)])
  }

  predicate Repeats(last: Option<Stamp>, e: Stamp) {
    last.Some? && RecentDuplicate(e, last.value)
  }

  function PointerButton(r: Router, i: nat, e: Stamp): Router
    requires i < |r.seats|
  {
    if Repeats(r.lastButton, e) then r
    else
      r.(lastButton := Some(e),
         log := r.log + [ButtonChanged(e.value, e.state, r.seats[i].x, r.seats[i].y)])
  }

  function KeyboardEnter(r: Router, i: nat): Router
    requires i < |r.seats|
  {
    var n := if r.seats[i].keyboardFocused then r.keyboardFocusCount else r.keyboardFocusCount + 1;
    r.(seats := r.seats[i := r.seats[i].(keyboardFocused := true)],
       keyboardFocusCount := n,
       log := if n == 1 then r.log + [KeyboardFocus(true)] else r.log)
  }

  function KeyboardKey(r: Router, e: Stamp): Router {
    if Repeats(r.lastKey, e) then r
    else r.(lastKey := Some(e), log := r.log + [KeyChanged(e.value, e.state)])
  }

  function PointerCapability(r: Router, i: nat, has: bool): (s: Router)
    requires i < |r.seats|
    ensures |s.seats| == |r.seats|
  {
    var c := if has then r else ClearPointerFocus(r, i);
    c.(seats := c.seats[i := c.seats[i].(pointer := has)])
  }

  function KeyboardCapability(r: Router, i: nat, has: bool): (s: Router)
    requires i < |r.seats|
    ensures |s.seats| == |r.seats|
  {
    var c := if has then r else ClearKeyboardFocus(r, i);
    c.(seats := c.seats[i := c.seats[i].(keyboard := has)])
  }

  function DestroySeat(r: Router, i: nat): (s: Router)
    requires i < |r.seats|
    ensures |s.seats| == |r.seats|
  {
    var c := ClearKeyboardFocus(ClearPointerFocus(r, i), i);
    c.(seats := c.seats[i := ZERO])
  }

  /** The first unbound slot at or after `i`, or the number of slots. */
  function FreeSlot(seats: seq<Seat>, i: nat): (k: nat)
    requires i <= |seats|
    ensures i <= k <= |seats|
    ensures k < |seats| ==> !seats[k].bound
    ensures forall j | i <= j < k :: seats[j].bound
    decreases |seats| - i
  {
    if i == |seats| || !seats[i].bound then i else FreeSlot(seats, i + 1)
  }

  /** A new seat is announced; `ok` is whether the bind yields a proxy. */
  function Bind(r: Router, name: nat, ok: bool): Router {
    var i := FreeSlot(r.seats, 0);
    if i == |r.seats| then r
    else
      var s := r.seats[i].(bound := true, registryName := name, index := r.seatCount);
      r.(seats := r.seats[i := if ok then s else ZERO],
         seatCount := (r.seatCount + 1) % WORD)
  }

  /** The first bound slot of that name at or after `i`, or the number of slots. */
  function SlotNamed(seats: seq<Seat>, name: nat, i: nat): (k: nat)
    requires i <= |seats|
    ensures i <= k <= |seats|
    ensures k < |seats| ==> seats[k].bound && seats[k].registryName == name
    ensures forall j | i <= j < k :: !(seats[j].bound && seats[j].registryName == name)
    decreases |seats| - i
  {
    if i == |seats| || (seats[i].bound && seats[i].registryName == name) then i else SlotNamed(seats, name, i + 1)
  }

  function Remove(r: Router, name: nat): Router {
    var i := SlotNamed(r.seats, name, 0);
    if i == |r.seats| then r else DestroySeat(r, i)
  }

  function DestroyFirst(r: Router, k: nat): (s: Router)
    requires k <= |r.seats|
    ensures |s.seats| == |r.seats|
  {
    if k == 0 then r
    else
      var p := DestroyFirst(r, k - 1);
      if p.seats[k - 1].bound then DestroySeat(p, k - 1) else p
  }

  datatype Event =
    | Bound(name: nat, ok: bool)
    | Removed(name: nat)
    | Capabilities(seat: nat, pointer: bool, keyboard: bool)
    | Entered(seat: nat, x: int, y: int)
    | Left(seat: nat)
    | Moved(seat: nat, x: int, y: int)
    | Button(seat: nat, stamp: Stamp)
    | KeyEntered(seat: nat)
    | KeyLeft(seat: nat)
    | Key(seat: nat, stamp: Stamp)
    | Shutdown

  predicate Possible(r: Router, e: Event) {
    match e
    case Bound(_, _) => true
    case Removed(_) => true
    case Shutdown => true
    case Capabilities(i, _, _) => i < |r.seats| && r.seats[i].bound
    case Entered(i, _, _) => i < |r.seats| && r.seats[i].pointer
    case Left(i) => i < |r.seats| && r.seats[i].pointer
    case Moved(i, _, _) => i < |r.seats| && r.seats[i].pointer
    case Button(i, _) => i < |r.seats| && r.seats[i].pointer
    case KeyEntered(i) => i < |r.seats| && r.seats[i].keyboard
    case KeyLeft(i) => i < |r.seats| && r.seats[i].keyboard
    case Key(i, _) => i < |r.seats| && r.seats[i].keyboard
  }

  function Step(r: Router, e: Event): Router
    requires Possible(r, e)
  {
    match e
    case Bound(name, ok) => Bind(r, name, ok)
    case Removed(name) => Remove(r, name)
    case Capabilities(i, pointer, keyboard) => KeyboardCapability(PointerCapability(r, i, pointer), i, keyboard)
    case Entered(i, x, y) => PointerEnter(r, i, x, y)
    case Left(i) => ClearPointerFocus(r, i)
    case Moved(i, x, y) => PointerMotion(r, i, x, y)
    case Button(i, e) => PointerButton(r, i, e)
    case KeyEntered(i) => KeyboardEnter(r, i)
    case KeyLeft(i) => ClearKeyboardFocus(r, i)
    case Key(_, e) => KeyboardKey(r, e)
    case Shutdown => DestroyFirst(r, |r.seats|)
  }

  function Start(): Router {
    Router(seq(MAX_SEATS, _ => ZERO), 0, 0, 0, None, None, [])
  }

  /** A run is the sequence of states it passes through. */
  ghost predicate IsRun(rs: seq<Router>, es: seq<Event>) {
    && |rs| == |es| + 1
    && rs[0] == Start()
    && forall k | 0 <= k < |es| :: Possible(rs[k], es[k]) && rs[k + 1] == Step(rs[k], es[k])
  }

  // --------------------------------------------------------------- the invariant

  predicate Focused(s: Seat, pointer: bool) {
    if pointer then s.pointerFocused else s.keyboardFocused
  }

  function FocusCount(seats: seq<Seat>, pointer: bool): nat {
    if seats == [] then 0
    else FocusCount(seats[..|seats| - 1], pointer) + if Focused(seats[|seats| - 1], pointer) then 1 else 0
  }

  lemma {:induction false} FocusCountUpdate(seats: seq<Seat>, i: nat, s: Seat, pointer: bool)
    requires i < |seats|
    ensures FocusCount(seats[i := s], pointer) + (if Focused(seats[i], pointer) then 1 else 0)
         == FocusCount(seats, pointer) + (if Focused(s, pointer) then 1 else 0)
  {
    var n := |seats| - 1;
    if i < n {
      assert seats[i := s][..n] == seats[..n][i := s];
      FocusCountUpdate(seats[..n], i, s, pointer);
    } else {
      assert seats[i := s][..n] == seats[..n];
    }
  }

  lemma {:induction false} FocusCountPositive(seats: seq<Seat>, pointer: bool)
    ensures FocusCount(seats, pointer) > 0 <==> exists i | 0 <= i < |seats| :: Focused(seats[i], pointer)
  {
    if seats != [] {
      var n := |seats| - 1;
      FocusCountPositive(seats[..n], pointer);
      if i :| 0 <= i < |seats[..n]| && Focused(seats[..n][i], pointer) { assert Focused(seats[i], pointer); }
      if i :| 0 <= i < |seats| && Focused(seats[i], pointer) {
        if i < n { assert Focused(seats[..n][i], pointer); }
      }
    }
  }

  /** What the application was last told about keyboard focus; at first, nothing: false. */
  function ToldKeyboard(log: seq<Note>): bool {
    if log == [] then false
    else match log[|log| - 1]
      case KeyboardFocus(f) => f
      case _ => ToldKeyboard(log[..|log| - 1])
  }

  /** Whether the last pointer enter or leave it was told is an enter. */
  function ToldPointer(log: seq<Note>): bool {
    if log == [] then false
    else match log[|log| - 1]
      case PointerEntered(_, _) => true
      case PointerLeft => false
      case _ => ToldPointer(log[..|log| - 1])
  }

  predicate SeatSound(s: Seat) {
    && (!s.bound ==> s == ZERO)
    && (s.pointer || s.keyboard ==> s.bound)
    && (s.pointerFocused ==> s.pointer)
    && (s.keyboardFocused ==> s.keyboard)
  }

  predicate Told(r: Router) {
    (ToldPointer(r.log), ToldKeyboard(r.log)) == (r.pointerFocusCount > 0, r.keyboardFocusCount > 0)
  }

  /** The counts are those of the flags, and so is what the application was last told. */
  predicate Tallied(r: Router) {
    (r.pointerFocusCount, r.keyboardFocusCount, ToldPointer(r.log), ToldKeyboard(r.log))
      == (FocusCount(r.seats, true), FocusCount(r.seats, false), r.pointerFocusCount > 0, r.keyboardFocusCount > 0)
  }

  ghost predicate Sound(r: Router) {
    && |r.seats| == MAX_SEATS
    && (forall i | 0 <= i < |r.seats| :: SeatSound(r.seats[i]))
    && Tallied(r)
  }

  lemma LogNote(log: seq<Note>, n: Note)
    ensures ToldPointer(log + [n])
         == (if n.PointerEntered? then true else if n.PointerLeft? then false else ToldPointer(log))
    ensures ToldKeyboard(log + [n]) == (if n.KeyboardFocus? then n.focused else ToldKeyboard(log))
  {
    assert (log + [n])[..|log|] == log;
  }

  /** Any change of one seat that keeps the counts in step with the flags. */
  lemma {:induction false} SeatChange(r: Router, t: Router, i: nat, s: Seat)
    requires Sound(r) && i < MAX_SEATS && SeatSound(s) && t.seats == r.seats[i := s]
    requires t.pointerFocusCount + (if r.seats[i].pointerFocused then 1 else 0)
          == r.pointerFocusCount + (if s.pointerFocused then 1 else 0)
    requires t.keyboardFocusCount + (if r.seats[i].keyboardFocused then 1 else 0)
          == r.keyboardFocusCount + (if s.keyboardFocused then 1 else 0)
    requires Told(t)
    ensures Sound(t)
  {
    FocusCountUpdate(r.seats, i, s, true);
    FocusCountUpdate(r.seats, i, s, false);
  }

  /** A focused seat is counted. */
  lemma {:induction false} Counted(r: Router, i: nat, pointer: bool)
    requires Sound(r) && i < MAX_SEATS && Focused(r.seats[i], pointer)
    ensures (if pointer then r.pointerFocusCount else r.keyboardFocusCount) > 0
  {
    FocusCountPositive(r.seats, pointer);
  }

  lemma {:induction false} ClearPointerSound(r: Router, i: nat)
    requires Sound(r) && i < MAX_SEATS
    ensures Sound(ClearPointerFocus(r, i))
    ensures ClearPointerFocus(r, i).seats[i] == r.seats[i].(pointerFocused := false)
  {
    if r.seats[i].pointerFocused { Counted(r, i, true); }
    LogNote(r.log, PointerLeft);
    SeatChange(r, ClearPointerFocus(r, i), i, r.seats[i].(pointerFocused := false));
  }

  lemma {:induction false} ClearKeyboardSound(r: Router, i: nat)
    requires Sound(r) && i < MAX_SEATS
    ensures Sound(ClearKeyboardFocus(r, i))
    ensures ClearKeyboardFocus(r, i).seats[i] == r.seats[i].(keyboardFocused := false)
  {
    if r.seats[i].keyboardFocused { Counted(r, i, false); }
    LogNote(r.log, KeyboardFocus(false));
    SeatChange(r, ClearKeyboardFocus(r, i), i, r.seats[i].(keyboardFocused := false));
  }

  lemma {:induction false} PointerCapabilitySound(r: Router, i: nat, pointer: bool)
    requires Sound(r) && i < MAX_SEATS && r.seats[i].bound
    ensures Sound(PointerCapability(r, i, pointer)) && PointerCapability(r, i, pointer).seats[i].bound
  {
    ClearPointerSound(r, i);
    var c := if pointer then r else ClearPointerFocus(r, i);
    SeatChange(c, PointerCapability(r, i, pointer), i, c.seats[i].(pointer := pointer));
  }

  lemma {:induction false} CapabilitiesSound(r: Router, i: nat, pointer: bool, keyboard: bool)
    requires Sound(r) && i < MAX_SEATS && r.seats[i].bound
    ensures Sound(KeyboardCapability(PointerCapability(r, i, pointer), i, keyboard))
  {
    var p := PointerCapability(r, i, pointer);
    PointerCapabilitySound(r, i, pointer);
    ClearKeyboardSound(p, i);
    var d := if keyboard then p else ClearKeyboardFocus(p, i);
    SeatChange(d, KeyboardCapability(p, i, keyboard), i, d.seats[i].(keyboard := keyboard));
  }

  lemma {:induction false} DestroySeatSound(r: Router, i: nat)
    requires Sound(r) && i < MAX_SEATS
    ensures Sound(DestroySeat(r, i))
  {
    ClearPointerSound(r, i);
    ClearKeyboardSound(ClearPointerFocus(r, i), i);
    SeatChange(ClearKeyboardFocus(ClearPointerFocus(r, i), i), DestroySeat(r, i), i, ZERO);
  }

  lemma {:induction false} DestroyFirstSound(r: Router, k: nat)
    requires Sound(r) && k <= MAX_SEATS
    ensures Sound(DestroyFirst(r, k))
    ensures forall i | 0 <= i < k :: DestroyFirst(r, k).seats[i] == ZERO
  {
    if k > 0 {
      DestroyFirstSound(r, k - 1);
      DestroySeatSound(DestroyFirst(r, k - 1), k - 1);
    }
  }

  lemma {:induction false} BindSound(r: Router, name: nat, ok: bool)
    requires Sound(r)
    ensures Sound(Bind(r, name, ok))
  {
    var i := FreeSlot(r.seats, 0);
    if i < |r.seats| { SeatChange(r, Bind(r, name, ok), i, Bind(r, name, ok).seats[i]); }
  }

  lemma {:induction false} EnterSound(r: Router, i: nat, x: int, y: int)
    requires Sound(r) && i < MAX_SEATS && r.seats[i].pointer
    ensures Sound(PointerEnter(r, i, x, y))
  {
    if r.seats[i].pointerFocused { Counted(r, i, true); }
    LogNote(r.log, PointerEntered(x, y));
    SeatChange(r, PointerEnter(r, i, x, y), i, r.seats[i].(x := x, y := y, pointerFocused := true));
  }

  lemma {:induction false} KeyEnterSound(r: Router, i: nat)
    requires Sound(r) && i < MAX_SEATS && r.seats[i].keyboard
    ensures Sound(KeyboardEnter(r, i))
  {
    if r.seats[i].keyboardFocused { Counted(r, i, false); }
    LogNote(r.log, KeyboardFocus(true));
    SeatChange(r, KeyboardEnter(r, i), i, r.seats[i].(keyboardFocused := true));
  }

  lemma {:induction false} StepSound(r: Router, e: Event)
    requires Sound(r) && Possible(r, e)
    ensures Sound(Step(r, e))
  {
    match e
    case Bound(name, ok) => BindSound(r, name, ok);
    case Removed(name) =>
      if SlotNamed(r.seats, name, 0) < MAX_SEATS { DestroySeatSound(r, SlotNamed(r.seats, name, 0)); }
    case Capabilities(i, pointer, keyboard) => CapabilitiesSound(r, i, pointer, keyboard);
    case Entered(i, x, y) => EnterSound(r, i, x, y);
    case Left(i) => ClearPointerSound(r, i);
    case Moved(i, x, y) =>
      LogNote(r.log, PointerMoved(x, y));
      SeatChange(r, PointerMotion(r, i, x, y), i, r.seats[i].(x := x, y := y));
    case Button(i, e) => LogNote(r.log, ButtonChanged(e.value, e.state, r.seats[i].x, r.seats[i].y));
    case KeyEntered(i) => KeyEnterSound(r, i);
    case KeyLeft(i) => ClearKeyboardSound(r, i);
    case Key(i, e) => LogNote(r.log, KeyChanged(e.value, e.state));
    case Shutdown => DestroyFirstSound(r, MAX_SEATS);
  }

  lemma {:induction false} NoFocusAtStart(n: nat, pointer: bool)
    ensures FocusCount(seq(n, _ => ZERO), pointer) == 0
  {
    if n > 0 {
      assert seq(n, _ => ZERO)[..n - 1] == seq(n - 1, _ => ZERO);
      NoFocusAtStart(n - 1, pointer);
    }
  }

  ghost predicate SomeFocused(r: Router, pointer: bool) {
    exists i | 0 <= i < |r.seats| :: Focused(r.seats[i], pointer)
  }

  lemma SoundTells(r: Router)
    requires Sound(r)
    ensures (ToldPointer(r.log), ToldKeyboard(r.log)) == (SomeFocused(r, true), SomeFocused(r, false))
  {
    FocusCountPositive(r.seats, true);
    FocusCountPositive(r.seats, false);
  }

  /** Over every run: focus counts equal the flags, focus implies live proxies, unbound
      slots are zero, and the application's last word on pointer and keyboard focus is
      right: focused exactly when some seat is. */
  lemma {:induction false} RunIsSound(rs: seq<Router>, es: seq<Event>)
    requires IsRun(rs, es)
    ensures forall k | 0 <= k < |rs| :: Sound(rs[k])
    ensures (ToldPointer(rs[|es|].log), ToldKeyboard(rs[|es|].log))
         == (SomeFocused(rs[|es|], true), SomeFocused(rs[|es|], false))
  {
    if es == [] {
      NoFocusAtStart(MAX_SEATS, true);
      NoFocusAtStart(MAX_SEATS, false);
      assert Sound(rs[0]);
    } else {
      var n := |es| - 1;
      hide Step, Sound, SomeFocused;
      RunIsSound(rs[..n + 1], es[..n]);
      StepSound(rs[n], es[n]);
      assert forall k | 0 <= k <= n :: rs[..n + 1][k] == rs[k];
    }
    hide Sound, SomeFocused;
    SoundTells(rs[|es|]);
  }

  // --------------------------------------------------------- delivery over a run

  /** The stamps of the key (or button) events of a run, whichever seat they come from. */
  function Stamps(es: seq<Event>, keys: bool): seq<Stamp> {
    if es == [] then []
    else
      var rest := Stamps(es[..|es| - 1], keys);
      match es[|es| - 1]
      case Key(_, e) => if keys then rest + [e] else rest
      case Button(_, e) => if keys then rest else rest + [e]
      case _ => rest
  }

  /** The key (or button) changes the application was told of: value and state. */
  function ToldChanges(log: seq<Note>, keys: bool): seq<(nat, nat)> {
    if log == [] then []
    else
      var rest := ToldChanges(log[..|log| - 1], keys);
      match log[|log| - 1]
      case KeyChanged(key, state) => if keys then rest + [(key, state)] else rest
      case ButtonChanged(button, state, _, _) => if keys then rest else rest + [(button, state)]
      case _ => rest
  }

  function Changes(d: seq<Stamp>): (c: seq<(nat, nat)>)
    ensures |c| == |d|
  {
    seq(|d|, i requires 0 <= i < |d| => (d[i].value, d[i].state))
  }

  function LastOf(r: Router, keys: bool): Option<Stamp> {
    if keys then r.lastKey else r.lastButton
  }

  /** The application was told exactly of the events the filter delivers, and the router
      remembers the last of them. */
  predicate Follows(r: Router, s: seq<Stamp>, keys: bool) {
    (ToldChanges(r.log, keys), LastOf(r, keys))
      == (Changes(Deliver(s)), if Deliver(s) == [] then None else Some(Deliver(s)[|Deliver(s)| - 1]))
  }

  /** `t` has told nothing more of keys and buttons than `r`. */
  predicate Quiet(r: Router, t: Router) {
    (t.lastKey, t.lastButton, ToldChanges(t.log, true), ToldChanges(t.log, false))
      == (r.lastKey, r.lastButton, ToldChanges(r.log, true), ToldChanges(r.log, false))
  }

  lemma NoteAdded(log: seq<Note>, n: Note, keys: bool)
    ensures ToldChanges(log + [n], keys) == ToldChanges(log, keys)
      + match n
        case KeyChanged(key, state) => if keys then [(key, state)] else []
        case ButtonChanged(button, state, _, _) => if keys then [] else [(button, state)]
        case _ => []
  {
    assert (log + [n])[..|log|] == log;
  }

  lemma OtherNotes(log: seq<Note>, n: Note)
    requires !n.KeyChanged? && !n.ButtonChanged?
    ensures (ToldChanges(log + [n], true), ToldChanges(log + [n], false))
         == (ToldChanges(log, true), ToldChanges(log, false))
  {
    NoteAdded(log, n, true);
    NoteAdded(log, n, false);
  }

  lemma ClearIsQuiet(r: Router, i: nat)
    requires i < |r.seats|
    ensures Quiet(r, ClearPointerFocus(r, i)) && Quiet(r, ClearKeyboardFocus(r, i))
  {
    hide ToldChanges;
    OtherNotes(r.log, PointerLeft);
    OtherNotes(r.log, KeyboardFocus(false));
  }

  lemma {:induction false} DestroyIsQuiet(r: Router, i: nat)
    requires i < |r.seats|
    ensures Quiet(r, DestroySeat(r, i))
  {
    hide ToldChanges, ClearPointerFocus, ClearKeyboardFocus;
    ClearIsQuiet(r, i);
    ClearIsQuiet(ClearPointerFocus(r, i), i);
  }

  lemma {:induction false} DestroyFirstIsQuiet(r: Router, k: nat)
    requires k <= |r.seats|
    ensures Quiet(r, DestroyFirst(r, k))
  {
    hide ToldChanges, DestroySeat;
    if k > 0 {
      DestroyFirstIsQuiet(r, k - 1);
      DestroyIsQuiet(DestroyFirst(r, k - 1), k - 1);
    }
  }

  lemma {:induction false} OtherEventsAreQuiet(r: Router, e: Event)
    requires Possible(r, e) && !e.Key? && !e.Button?
    ensures Quiet(r, Step(r, e))
  {
    hide ToldChanges, ClearPointerFocus, ClearKeyboardFocus, DestroySeat;
    match e
    case Removed(name) =>
      if SlotNamed(r.seats, name, 0) < |r.seats| { DestroyIsQuiet(r, SlotNamed(r.seats, name, 0)); }
    case Capabilities(i, pointer, _) =>
      ClearIsQuiet(r, i);
      ClearIsQuiet(PointerCapability(r, i, pointer), i);
    case Left(i) => ClearIsQuiet(r, i);
    case KeyLeft(i) => ClearIsQuiet(r, i);
    case Shutdown => DestroyFirstIsQuiet(r, |r.seats|);
    case Entered(_, x, y) => OtherNotes(r.log, PointerEntered(x, y));
    case Moved(_, x, y) => OtherNotes(r.log, PointerMoved(x, y));
    case KeyEntered(_) => OtherNotes(r.log, KeyboardFocus(true));
    case Bound(_, _) =>
  }

  /** The note a key or button event makes when it is not suppressed. */
  function NoteOf(r: Router, e: Event): Note
    requires Possible(r, e) && (e.Key? || e.Button?)
  {
    match e
    case Key(_, s) => KeyChanged(s.value, s.state)
    case Button(i, s) => ButtonChanged(s.value, s.state, r.seats[i].x, r.seats[i].y)
  }

  lemma ChangesStep(d: seq<Stamp>, e: Stamp)
    ensures Changes(d + [e]) == Changes(d) + [(e.value, e.state)]
  {
  }

  lemma {:induction false} OtherStream(r: Router, e: Event, s: seq<Stamp>, keys: bool)
    requires Possible(r, e) && (e.Key? || e.Button?) && e.Key? != keys
    requires Follows(r, s, keys)
    ensures Follows(Step(r, e), s, keys)
  {
    hide RecentDuplicate, Deliver, Changes, ToldChanges;
    NoteAdded(r.log, NoteOf(r, e), keys);
    assert ToldChanges(Step(r, e).log, keys) == ToldChanges(r.log, keys);
  }

  lemma {:induction false} OwnStream(r: Router, e: Event, s: seq<Stamp>, keys: bool)
    requires Possible(r, e) && (e.Key? || e.Button?) && e.Key? == keys
    requires Follows(r, s, keys)
    ensures Follows(Step(r, e), s + [e.stamp], keys)
  {
    hide RecentDuplicate, Deliver, Changes, ToldChanges;
    DeliverStep(s, e.stamp);
    NoteAdded(r.log, NoteOf(r, e), keys);
    ChangesStep(Deliver(s), e.stamp);
  }

  lemma QuietFollows(r: Router, t: Router, s: seq<Stamp>, keys: bool)
    requires Quiet(r, t) && Follows(r, s, keys)
    ensures Follows(t, s, keys)
  {
    hide ToldChanges, Deliver, Changes;
  }

  /** Over every run, whatever seats the events come from and whatever focus does in
      between, what the application is told is what the duplicate filter lets through. */
  lemma {:induction false} RunDeliversFiltered(rs: seq<Router>, es: seq<Event>, keys: bool)
    requires IsRun(rs, es)
    ensures Follows(rs[|es|], Stamps(es, keys), keys)
  {
    if es != [] {
      hide Step, Follows, Quiet, Deliver;
      var n := |es| - 1;
      RunDeliversFiltered(rs[..n + 1], es[..n], keys);
      if es[n].Key? || es[n].Button? {
        if es[n].Key? == keys {
          OwnStream(rs[n], es[n], Stamps(es[..n], keys), keys);
        } else {
          OtherStream(rs[n], es[n], Stamps(es[..n], keys), keys);
        }
      } else {
        OtherEventsAreQuiet(rs[n], es[n]);
        QuietFollows(rs[n], rs[n + 1], Stamps(es[..n], keys), keys);
      }
    }
  }

  /** When the time stamps are the 32-bit counter of a clock that has not advanced by 2^32 ms,
      that is what the filter on the clock lets through. */
  lemma {:induction false} RunFollowsClock(rs: seq<Router>, es: seq<Event>, s: seq<Stamp>, keys: bool)
    requires IsRun(rs, es) && Stamps(es, keys) == Wrapped(s)
    requires Monotone(s) && (s != [] ==> s[|s| - 1].time - s[0].time < WORD)
    ensures ToldChanges(rs[|es|].log, keys) == Changes(DeliverByClock(s))
  {
    RunDeliversFiltered(rs, es, keys);
    CounterFollowsClock(s);
    assert Changes(Wrapped(DeliverByClock(s))) == Changes(DeliverByClock(s));
  }

  /** So the seats do not matter: two runs with the same stamps tell the same changes. */
  lemma {:induction false} SeatDoesNotMatter(
      rs: seq<Router>, es: seq<Event>, qs: seq<Router>, fs: seq<Event>, keys: bool)
    requires IsRun(rs, es) && IsRun(qs, fs) && Stamps(es, keys) == Stamps(fs, keys)
    ensures ToldChanges(rs[|es|].log, keys) == ToldChanges(qs[|fs|].log, keys)
  {
    RunDeliversFiltered(rs, es, keys);
    RunDeliversFiltered(qs, fs, keys);
  }

  // ------------------------------------------------------------ pointer positions

  function At(s: Seat): (int, int) { (s.x, s.y) }

  /** Where the pointer of seat i is after n events: where the last enter or motion of the
      seat put it; an unbound slot and a seat that had neither are at the origin. */
  ghost function Position(rs: seq<Router>, es: seq<Event>, i: nat, n: nat): (int, int)
    requires n <= |es| < |rs|
  {
    if n == 0 then (0, 0)
    else if es[n - 1].Entered? && es[n - 1].seat == i then (es[n - 1].x, es[n - 1].y)
    else if es[n - 1].Moved? && es[n - 1].seat == i then (es[n - 1].x, es[n - 1].y)
    else if i < |rs[n].seats| && rs[n].seats[i].bound then Position(rs, es, i, n - 1)
    else (0, 0)
  }

  lemma {:induction false} OnlyMotionMoves(r: Router, e: Event, i: nat)
    requires Sound(r) && Possible(r, e) && i < MAX_SEATS
    ensures i < |Step(r, e).seats|
    ensures At(Step(r, e).seats[i]) ==
      if (e.Entered? || e.Moved?) && e.seat == i then (e.x, e.y)
      else if Step(r, e).seats[i].bound then At(r.seats[i]) else (0, 0)
  {
    hide Tallied;
    StepSound(r, e);
    if e.Shutdown? { DestroyFirstSound(r, MAX_SEATS); }
  }

  /** Over every run each slot holds the position of its pointer. */
  lemma {:induction false} RunKeepsPositions(rs: seq<Router>, es: seq<Event>, i: nat)
    requires IsRun(rs, es) && i < MAX_SEATS
    ensures |rs[|es|].seats| == MAX_SEATS
    ensures At(rs[|es|].seats[i]) == Position(rs, es, i, |es|)
  {
    if es != [] {
      var n := |es| - 1;
      hide Step, SeatSound, Tallied;
      RunKeepsPositions(rs[..n + 1], es[..n], i);
      SamePosition(rs, es, i, n, n);
      RunIsSound(rs[..n + 1], es[..n]);
      StepSound(rs[n], es[n]);
      OnlyMotionMoves(rs[n], es[n], i);
    }
  }

  lemma {:induction false} SamePosition(rs: seq<Router>, es: seq<Event>, i: nat, n: nat, k: nat)
    requires k <= n < |es| && |rs| == |es| + 1
    ensures Position(rs[..n + 1], es[..n], i, k) == Position(rs, es, i, k)
  {
    if k > 0 { SamePosition(rs, es, i, n, k - 1); }
  }

  /** A button is told with the position of its own seat, unless it is suppressed. */
  lemma {:induction false} ButtonTellsPosition(rs: seq<Router>, es: seq<Event>)
    requires IsRun(rs, es) && es != [] && es[|es| - 1].Button?
    ensures var n := |es| - 1; var e := es[n];
      var (x, y) := Position(rs, es, e.seat, n);
      rs[n + 1].log == rs[n].log
        + if Suppressed(Deliver(Stamps(es[..n], false)), e.stamp) then []
          else [ButtonChanged(e.stamp.value, e.stamp.state, x, y)]
  {
    hide RecentDuplicate, Deliver, Stamps, ToldChanges, SeatSound, Tallied;
    var n := |es| - 1;
    RunIsSound(rs[..n + 1], es[..n]);
    RunKeepsPositions(rs[..n + 1], es[..n], es[n].seat);
    SamePosition(rs, es, es[n].seat, n, n);
    RunDeliversFiltered(rs[..n + 1], es[..n], false);
  }

  // ------------------------------------------------------ which slots an event changes

  predicate Named(s: Seat, name: nat) { s.bound && s.registryName == name }

  /** Slot `i` is the first that is bound to that name. */
  ghost predicate IsFirstNamed(seats: seq<Seat>, name: nat, i: nat) {
    i < |seats| && Named(seats[i], name) && forall j | 0 <= j < i :: !Named(seats[j], name)
  }

  ghost predicate IsFirstFree(seats: seq<Seat>, i: nat) {
    i < |seats| && !seats[i].bound && forall j | 0 <= j < i :: seats[j].bound
  }

  /** A removal zeroes the first slot bound to the name and no other slot; if no slot is bound
      to it, it changes nothing at all. */
  lemma {:induction false} RemovalEffect(r: Router, name: nat)
    ensures var s := Step(r, Removed(name));
      && |s.seats| == |r.seats|
      && (forall i: nat | IsFirstNamed(r.seats, name, i) :: s.seats == r.seats[i := ZERO])
      && ((forall i | 0 <= i < |r.seats| :: !Named(r.seats[i], name)) ==> s == r)
      && (s.seatCount, s.lastKey, s.lastButton) == (r.seatCount, r.lastKey, r.lastButton)
  {
    var k := SlotNamed(r.seats, name, 0);
    forall i: nat | IsFirstNamed(r.seats, name, i) ensures i == k {
      if k < i { assert Named(r.seats[k], name); }
    }
  }

  /** A bind takes the first slot that is not bound, which is zero, and gives it the name and the
      next index, counted modulo 2^32; a bind that fails leaves the slot zero but uses up the
      index; without a free slot nothing changes. */
  lemma {:induction false} BindEffect(r: Router, name: nat, ok: bool)
    requires forall i | 0 <= i < |r.seats| :: SeatSound(r.seats[i])
    ensures var s := Step(r, Bound(name, ok));
      var seat := Seat(true, false, false, name, r.seatCount, 0, 0, false, false);
      && (forall i: nat | IsFirstFree(r.seats, i) ::
            s == r.(seats := if ok then r.seats[i := seat] else r.seats, seatCount := (r.seatCount + 1) % WORD))
      && ((forall i | 0 <= i < |r.seats| :: r.seats[i].bound) ==> s == r)
  {
    var k := FreeSlot(r.seats, 0);
    forall i: nat | IsFirstFree(r.seats, i) ensures i == k {}
    if k < |r.seats| { assert r.seats[k := ZERO] == r.seats; }
  }

  /** The proxy of one kind. */
  predicate HasProxy(s: Seat, pointer: bool) { if pointer then s.pointer else s.keyboard }

  /** The event puts the focus of that kind on the seat in slot `i`. */
  predicate Focuses(e: Event, i: nat, pointer: bool) {
    if pointer then e.Entered? && e.seat == i else e.KeyEntered? && e.seat == i
  }

  /** The event takes the focus of that kind, or the proxy with it, from the seat in slot `i`. */
  predicate Unfocuses(e: Event, i: nat, pointer: bool) {
    if pointer then (e.Left? && e.seat == i) || (e.Capabilities? && e.seat == i && !e.pointer)
    else (e.KeyLeft? && e.seat == i) || (e.Capabilities? && e.seat == i && !e.keyboard)
  }

  /** What an event leaves of a seat that stays bound, or has just been: a change of its
      capabilities sets its proxies, and only the events that say so move its focus. */
  lemma {:induction false} SeatEffect(r: Router, e: Event, i: nat, pointer: bool)
    requires Sound(r) && Possible(r, e) && i < MAX_SEATS
    ensures i < |Step(r, e).seats|
    ensures var s, t := r.seats[i], Step(r, e).seats[i];
      (Focused(t, pointer), HasProxy(t, pointer))
        == (Focuses(e, i, pointer) || (Focused(s, pointer) && !Unfocuses(e, i, pointer) && t.bound),
            if e.Capabilities? && e.seat == i then (if pointer then e.pointer else e.keyboard)
            else HasProxy(s, pointer) && t.bound)
  {
    hide Tallied;
    StepSound(r, e);
    if e.Shutdown? { DestroyFirstSound(r, MAX_SEATS); }
  }

  predicate BoundIn(r: Router, i: nat) { i < |r.seats| && r.seats[i].bound }

  ghost predicate LeavesFocus(rs: seq<Router>, es: seq<Event>, i: nat, pointer: bool, j: nat)
    requires |rs| == |es| + 1 && j < |es|
  {
    !Unfocuses(es[j], i, pointer) && BoundIn(rs[j + 1], i)
  }

  /** Event `k` focuses the seat, and none after it unfocuses or unbinds it. */
  ghost predicate FocusedAt(rs: seq<Router>, es: seq<Event>, i: nat, pointer: bool, k: nat)
    requires |rs| == |es| + 1
  {
    k < |es| && Focuses(es[k], i, pointer) && forall j | k < j < |es| :: LeavesFocus(rs, es, i, pointer, j)
  }

  lemma FocusedBefore(rs: seq<Router>, es: seq<Event>, i: nat, pointer: bool, k: nat)
    requires |rs| == |es| + 1 && k < |es| - 1
    ensures var n := |es| - 1;
      var before := FocusedAt(rs[..n + 1], es[..n], i, pointer, k);
      FocusedAt(rs, es, i, pointer, k) <==> before && LeavesFocus(rs, es, i, pointer, n)
  {
    var n := |es| - 1;
    var rs0, es0 := rs[..n + 1], es[..n];
    forall j | k < j < n ensures LeavesFocus(rs0, es0, i, pointer, j) == LeavesFocus(rs, es, i, pointer, j) {}
    hide Focuses, LeavesFocus;
    assert es0[k] == es[k];
    if FocusedAt(rs0, es0, i, pointer, k) && LeavesFocus(rs, es, i, pointer, n) {
      forall j | k < j < |es| ensures LeavesFocus(rs, es, i, pointer, j) {
        if j < n { assert LeavesFocus(rs0, es0, i, pointer, j); }
      }
    }
    if FocusedAt(rs, es, i, pointer, k) {
      forall j | k < j < n ensures LeavesFocus(rs0, es0, i, pointer, j) {
        assert LeavesFocus(rs, es, i, pointer, j);
      }
    }
  }

  /** The last event decides, or leaves the focus as the events before it put it. */
  lemma {:induction false} LastFocus(
      rs: seq<Router>, es: seq<Event>, rs0: seq<Router>, es0: seq<Event>, i: nat, pointer: bool)
    requires |rs| == |es| + 1 && es != [] && rs0 == rs[..|es|] && es0 == es[..|es| - 1]
    ensures var n, before := |es| - 1, exists k: nat :: FocusedAt(rs0, es0, i, pointer, k);
      (exists k: nat :: FocusedAt(rs, es, i, pointer, k))
        <==> Focuses(es[n], i, pointer) || (LeavesFocus(rs, es, i, pointer, n) && before)
  {
    hide Focuses, LeavesFocus;
    var n := |es| - 1;
    if k: nat :| FocusedAt(rs, es, i, pointer, k) {
      if k < n { FocusedBefore(rs, es, i, pointer, k); }
    }
    if Focuses(es[n], i, pointer) { assert FocusedAt(rs, es, i, pointer, n); }
    if k: nat :| FocusedAt(rs0, es0, i, pointer, k) { FocusedBefore(rs, es, i, pointer, k); }
  }

  /** Over every run a seat is focused exactly when an enter of it was not followed by a leave, by
      the loss of the capability or by its removal. */
  lemma {:induction false} RunFocusIff(rs: seq<Router>, es: seq<Event>, i: nat, pointer: bool)
    requires IsRun(rs, es) && i < MAX_SEATS
    ensures |rs[|es|].seats| == MAX_SEATS
    ensures Focused(rs[|es|].seats[i], pointer) <==> exists k: nat :: FocusedAt(rs, es, i, pointer, k)
  {
    assert |rs[|es|].seats| == MAX_SEATS by { RunIsSound(rs, es); }
    if es != [] {
      hide Step, Sound, Focuses, Unfocuses, Focused, FocusedAt;
      var n := |es| - 1;
      RunFocusIff(rs[..n + 1], es[..n], i, pointer);
      RunIsSound(rs[..n + 1], es[..n]);
      SeatEffect(rs[n], es[n], i, pointer);
      LastFocus(rs, es, rs[..n + 1], es[..n], i, pointer);
    }
  }

  // --------------------------------------------------------- which names are bound

  ghost predicate HasName(r: Router, name: nat) {
    exists i | 0 <= i < |r.seats| :: Named(r.seats[i], name)
  }

  ghost predicate AtMostOnce(r: Router, name: nat) {
    forall i, j | 0 <= i < j < |r.seats| :: !(Named(r.seats[i], name) && Named(r.seats[j], name))
  }

  ghost predicate SomeFree(r: Router) {
    exists i | 0 <= i < |r.seats| :: !r.seats[i].bound
  }

  lemma {:induction false} ShutdownUnbinds(r: Router, k: nat)
    requires k <= |r.seats|
    ensures forall i | 0 <= i < k :: !DestroyFirst(r, k).seats[i].bound
  {
    if k > 0 { ShutdownUnbinds(r, k - 1); }
  }

  lemma OthersKeepNames(r: Router, e: Event, name: nat)
    requires Possible(r, e) && !e.Bound? && !e.Removed? && !e.Shutdown?
    ensures |Step(r, e).seats| == |r.seats|
    ensures forall i | 0 <= i < |r.seats| :: Named(Step(r, e).seats[i], name) == Named(r.seats[i], name)
  {
  }

  lemma {:induction false} BoundStep(r: Router, e: Event, name: nat)
    requires e.Bound? && AtMostOnce(r, name) && (e.name == name ==> !HasName(r, name))
    ensures AtMostOnce(Step(r, e), name)
    ensures HasName(Step(r, e), name) <==> if e.name == name then e.ok && SomeFree(r) else HasName(r, name)
  {
    var k, s := FreeSlot(r.seats, 0), Step(r, e);
    if k < |r.seats| {
      assert Named(s.seats[k], name) == (e.ok && e.name == name);
      forall i | 0 <= i < |r.seats| && i != k ensures s.seats[i] == r.seats[i] {}
      if i :| 0 <= i < |r.seats| && Named(r.seats[i], name) { assert Named(s.seats[i], name); }
    }
  }

  lemma {:induction false} RemovedStep(r: Router, e: Event, name: nat)
    requires e.Removed? && AtMostOnce(r, name)
    ensures AtMostOnce(Step(r, e), name)
    ensures HasName(Step(r, e), name) <==> HasName(r, name) && e.name != name
  {
    var k, s := SlotNamed(r.seats, e.name, 0), Step(r, e);
    if k < |r.seats| {
      assert s.seats == r.seats[k := ZERO];
      if i :| 0 <= i < |r.seats| && Named(r.seats[i], name) && i != k { assert Named(s.seats[i], name); }
      assert Named(r.seats[k], e.name);
    } else if i :| 0 <= i < |r.seats| && Named(r.seats[i], name) {
      assert Named(s.seats[i], name);
    }
  }

  lemma {:induction false} NamesStep(r: Router, e: Event, name: nat)
    requires Possible(r, e) && AtMostOnce(r, name) && (e.Bound? && e.name == name ==> !HasName(r, name))
    ensures (AtMostOnce(Step(r, e), name), HasName(Step(r, e), name))
         == (true, if e.Bound? && e.name == name then e.ok && SomeFree(r)
                   else HasName(r, name) && e != Removed(name) && !e.Shutdown?)
  {
    hide Step, Possible;
    if e.Bound? {
      BoundStep(r, e, name);
    } else if e.Removed? {
      RemovedStep(r, e, name);
    } else if e.Shutdown? {
      ShutdownStep(r, name);
    } else {
      OthersKeepNames(r, e, name);
      if i :| 0 <= i < |r.seats| && Named(r.seats[i], name) { assert Named(Step(r, e).seats[i], name); }
    }
  }

  lemma ShutdownStep(r: Router, name: nat)
    ensures (AtMostOnce(Step(r, Shutdown), name), HasName(Step(r, Shutdown), name)) == (true, false)
  {
    ShutdownUnbinds(r, |r.seats|);
  }

  /** The name goes out of use: its seat is removed, or all of them are. */
  predicate Retracts(e: Event, name: nat) { e == Removed(name) || e.Shutdown? }

  /** A name is announced again only after it went out of use. */
  ghost predicate NamesDistinct(es: seq<Event>) {
    forall i, j | 0 <= i < j < |es| && es[i].Bound? && es[j].Bound? && es[i].name == es[j].name ::
      exists k | i < k < j :: Retracts(es[k], es[i].name)
  }

  /** Event `k` bound the name to a free slot, and it has not gone out of use since. */
  ghost predicate BoundAt(rs: seq<Router>, es: seq<Event>, name: nat, k: nat)
    requires |rs| == |es| + 1
  {
    && k < |es| && es[k] == Bound(name, true) && SomeFree(rs[k])
    && forall j | k < j < |es| :: !Retracts(es[j], name)
  }

  lemma PrefixDistinct(es: seq<Event>, n: nat)
    requires NamesDistinct(es) && n <= |es|
    ensures NamesDistinct(es[..n])
  {
    hide Retracts;
    forall i, j | 0 <= i < j < n && es[..n][i].Bound? && es[..n][j].Bound? && es[..n][i].name == es[..n][j].name
      ensures exists k | i < k < j :: Retracts(es[..n][k], es[..n][i].name)
    {
      var k :| i < k < j && Retracts(es[k], es[i].name);
      assert es[..n][k] == es[k];
    }
  }

  lemma BoundBefore(rs: seq<Router>, es: seq<Event>, name: nat, k: nat)
    requires |rs| == |es| + 1 && k < |es| - 1
    ensures var n := |es| - 1;
      BoundAt(rs, es, name, k) == (BoundAt(rs[..n + 1], es[..n], name, k) && !Retracts(es[n], name))
  {
    hide Retracts, SomeFree;
    var n := |es| - 1;
    assert rs[..n + 1][k] == rs[k];
    assert forall j | 0 <= j < n :: es[..n][j] == es[j];
  }

  lemma NotBoundBefore(rs0: seq<Router>, es: seq<Event>, es0: seq<Event>, name: nat)
    requires es != [] && es0 == es[..|es| - 1] && |rs0| == |es| && NamesDistinct(es)
    requires es[|es| - 1].Bound? && es[|es| - 1].name == name
    ensures forall k: nat :: !BoundAt(rs0, es0, name, k)
  {
    hide Retracts, SomeFree;
    var n := |es| - 1;
    forall k: nat | k < n && es[k] == Bound(name, true) ensures exists j | k < j < n :: Retracts(es0[j], name) {
      var j :| k < j < n && Retracts(es[j], es[k].name);
      assert es0[j] == es[j];
    }
  }

  /** The last event decides, or leaves the name as the events before it left it. */
  lemma LastBound(rs: seq<Router>, es: seq<Event>, rs0: seq<Router>, es0: seq<Event>, name: nat)
    requires |rs| == |es| + 1 && es != [] && rs0 == rs[..|es|] && es0 == es[..|es| - 1]
    ensures var n, before := |es| - 1, exists k: nat :: BoundAt(rs0, es0, name, k);
      (exists k: nat :: BoundAt(rs, es, name, k))
        <==> (es[n] == Bound(name, true) && SomeFree(rs[n])) || (!Retracts(es[n], name) && before)
  {
    hide SomeFree, Retracts;
    var n := |es| - 1;
    if k: nat :| BoundAt(rs, es, name, k) {
      if k < n { BoundBefore(rs, es, name, k); }
    }
    if es[n] == Bound(name, true) && SomeFree(rs[n]) { assert BoundAt(rs, es, name, n); }
    if k: nat :| BoundAt(rs0, es0, name, k) { BoundBefore(rs, es, name, k); }
  }

  /** Over every run in which a name is announced again only after it went out of use, a name
      is bound exactly when an announcement of it found a free slot and gave a proxy, and it
      has not gone out of use since; and to one slot only. */
  lemma {:induction false} RunBindsNames(rs: seq<Router>, es: seq<Event>, name: nat)
    requires IsRun(rs, es) && NamesDistinct(es)
    ensures AtMostOnce(rs[|es|], name)
    ensures HasName(rs[|es|], name) <==> exists k: nat :: BoundAt(rs, es, name, k)
  {
    if es != [] {
      hide Step, Possible, SomeFree, HasName, AtMostOnce, BoundAt, NamesDistinct;
      var n := |es| - 1;
      var rs0, es0 := rs[..n + 1], es[..n];
      PrefixDistinct(es, n);
      RunBindsNames(rs0, es0, name);
      LastBound(rs, es, rs0, es0, name);
      if es[n].Bound? && es[n].name == name { NotBoundBefore(rs0, es, es0, name); }
      NamesStep(rs[n], es[n], name);
    }
  }

  // --------------------------------------------------------- what the application is told

  /** From `r` to `s` no focus was gained, and the application was told that one was lost exactly
      where the last seat lost it. */
  predicate TellsLoss(r: Router, s: Router) {
    var left := if r.pointerFocusCount > 0 && s.pointerFocusCount == 0 then [PointerLeft] else [];
    var lost := if r.keyboardFocusCount > 0 && s.keyboardFocusCount == 0 then [KeyboardFocus(false)] else [];
    s == r.(seats := s.seats, seatCount := s.seatCount,
            pointerFocusCount := Min(r.pointerFocusCount, s.pointerFocusCount),
            keyboardFocusCount := Min(r.keyboardFocusCount, s.keyboardFocusCount),
            log := if s.log == r.log + lost + left then r.log + lost + left else r.log + left + lost)
  }

  lemma TellsLossTransitive(r: Router, s: Router, t: Router)
    requires TellsLoss(r, s) && TellsLoss(s, t)
    ensures TellsLoss(r, t)
  {
  }

  lemma ClearTells(r: Router, i: nat)
    requires Sound(r) && i < MAX_SEATS
    ensures TellsLoss(r, ClearPointerFocus(r, i)) && TellsLoss(r, ClearKeyboardFocus(r, i))
  {
    if r.seats[i].pointerFocused { Counted(r, i, true); }
    if r.seats[i].keyboardFocused { Counted(r, i, false); }
  }

  lemma SameTold(r: Router, s: Router, t: Router)
    requires TellsLoss(r, s) && t == s.(seats := t.seats)
    ensures TellsLoss(r, t)
  {
  }

  lemma {:induction false} DestroyTells(r: Router, i: nat)
    requires Sound(r) && i < MAX_SEATS
    ensures TellsLoss(r, DestroySeat(r, i))
  {
    assert |r.seats| == MAX_SEATS;
    hide TellsLoss, Sound, ClearPointerFocus, ClearKeyboardFocus;
    ClearPointerSound(r, i);
    var p := ClearPointerFocus(r, i);
    var c := ClearKeyboardFocus(p, i);
    ClearTells(r, i);
    ClearTells(p, i);
    TellsLossTransitive(r, p, c);
    SameTold(r, c, DestroySeat(r, i));
  }

  lemma NothingTold(r: Router, s: Router)
    requires s == r.(seats := s.seats, seatCount := s.seatCount)
    ensures TellsLoss(r, s)
  {
  }

  lemma {:induction false} ShutdownTells(r: Router, k: nat)
    requires Sound(r) && k <= MAX_SEATS
    ensures TellsLoss(r, DestroyFirst(r, k))
  {
    assert |r.seats| == MAX_SEATS;
    hide TellsLoss, Sound, DestroySeat;
    if k == 0 {
      NothingTold(r, r);
    } else {
      var p := DestroyFirst(r, k - 1);
      ShutdownTells(r, k - 1);
      DestroyFirstSound(r, k - 1);
      DestroyTells(p, k - 1);
      TellsLossTransitive(r, p, DestroySeat(p, k - 1));
    }
  }

  lemma {:induction false} CapabilitiesTell(r: Router, i: nat, pointer: bool, keyboard: bool)
    requires Sound(r) && i < MAX_SEATS && r.seats[i].bound
    ensures TellsLoss(r, KeyboardCapability(PointerCapability(r, i, pointer), i, keyboard))
  {
    assert |r.seats| == MAX_SEATS;
    hide TellsLoss, Sound, ClearPointerFocus, ClearKeyboardFocus;
    NothingTold(r, r);
    ClearTells(r, i);
    var p := PointerCapability(r, i, pointer);
    SameTold(r, if pointer then r else ClearPointerFocus(r, i), p);
    assert Sound(p) by { PointerCapabilitySound(r, i, pointer); }
    NothingTold(p, p);
    ClearTells(p, i);
    var k := KeyboardCapability(p, i, keyboard);
    SameTold(p, if keyboard then p else ClearKeyboardFocus(p, i), k);
    TellsLossTransitive(r, p, k);
  }

  /** What the application is told of an enter or a motion: its coordinates, and keyboard focus when
      the enter leaves one seat focused. */
  function Announces(e: Event, keyboardFocusCount: nat): seq<Note> {
    match e
    case Entered(_, x, y) => [PointerEntered(x, y)]
    case Moved(_, x, y) => [PointerMoved(x, y)]
    case KeyEntered(_) => if keyboardFocusCount == 1 then [KeyboardFocus(true)] else []
    case _ => []
  }

  /** That is all it is told of these; and of any other event, keys and buttons apart, exactly the
      loss of a focus when no seat has it any more. */
  lemma {:induction false} NotesTold(r: Router, e: Event)
    requires Sound(r) && Possible(r, e) && !e.Key? && !e.Button?
    ensures if e.Entered? || e.Moved? || e.KeyEntered?
      then Step(r, e).log == r.log + Announces(e, Step(r, e).keyboardFocusCount)
      else TellsLoss(r, Step(r, e))
  {
    hide TellsLoss, Tallied;
    match e
    case Bound(_, _) => NothingTold(r, Step(r, e));
    case Removed(name) =>
      if SlotNamed(r.seats, name, 0) < MAX_SEATS {
        DestroyTells(r, SlotNamed(r.seats, name, 0));
      } else {
        NothingTold(r, r);
      }
    case Capabilities(i, pointer, keyboard) => CapabilitiesTell(r, i, pointer, keyboard);
    case Left(i) => ClearTells(r, i);
    case KeyLeft(i) => ClearTells(r, i);
    case Shutdown => ShutdownTells(r, MAX_SEATS);
    case _ =>
  }

  // -------------------------------------------------------------- implementation

  /** struct webos_input_context. */
  class InputContext {
    const seats: array<Seat>
    var seatCount: nat
    var pointerFocusCount: nat
    var keyboardFocusCount: nat
    var lastKey: Option<Stamp>
    var lastButton: Option<Stamp>
    ghost var log: seq<Note>

    ghost function View(): Router
      reads this, seats
    {
      Router(seats[..], seatCount, pointerFocusCount, keyboardFocusCount, lastKey, lastButton, log)
    }

    constructor ()
      ensures View() == Start() && fresh(seats)
    {
      seats := new Seat[MAX_SEATS](_ => ZERO);
      seatCount, pointerFocusCount, keyboardFocusCount := 0, 0, 0;
      lastKey, lastButton := None, None;
      log := [];
    }

    method ClearPointer(i: nat)
      requires i < seats.Length
      modifies this, seats
      ensures View() == ClearPointerFocus(old(View()), i)
    {
      if !seats[i].pointerFocused {
        assert seats[..] == seats[..][i := seats[i].(pointerFocused := false)];
        return;
      }
      seats[i] := seats[i].(pointerFocused := false);
      if pointerFocusCount > 0 { pointerFocusCount := pointerFocusCount - 1; }
      if pointerFocusCount == 0 { log := log + [PointerLeft]; }
    }

    method ClearKeyboard(i: nat)
      requires i < seats.Length
      modifies this, seats
      ensures View() == ClearKeyboardFocus(old(View()), i)
    {
      if !seats[i].keyboardFocused {
        assert seats[..] == seats[..][i := seats[i].(keyboardFocused := false)];
        return;
      }
      seats[i] := seats[i].(keyboardFocused := false);
      if keyboardFocusCount > 0 { keyboardFocusCount := keyboardFocusCount - 1; }
      if keyboardFocusCount == 0 { log := log + [KeyboardFocus(false)]; }
    }

    method OnPointerEnter(i: nat, x: int, y: int)
      requires i < seats.Length
      modifies this, seats
      ensures View() == PointerEnter(old(View()), i, x, y)
    {
      seats[i] := seats[i].(x := x, y := y);
      if !seats[i].pointerFocused {
        seats[i] := seats[i].(pointerFocused := true);
        pointerFocusCount := pointerFocusCount + 1;
      }
      log := log + [PointerEntered(x, y)];
    }

    method OnPointerMotion(i: nat, x: int, y: int)
      requires i < seats.Length
      modifies this, seats
      ensures View() == PointerMotion(old(View()), i, x, y)
    {
      seats[i] := seats[i].(x := x, y := y);
      log := log + [PointerMoved(x, y)];
    }

    method OnPointerButton(i: nat, e: Stamp)
      requires i < seats.Length
      modifies this
      ensures View() == PointerButton(old(View()), i, e)
    {
      if lastButton.Some? && RecentDuplicate(e, lastButton.value) { return; }
      lastButton := Some(e);
      log := log + [ButtonChanged(e.value, e.state, seats[i].x, seats[i].y)];
    }

    method OnKeyboardEnter(i: nat)
      requires i < seats.Length
      modifies this, seats
      ensures View() == KeyboardEnter(old(View()), i)
    {
      if !seats[i].keyboardFocused {
        seats[i] := seats[i].(keyboardFocused := true);
        keyboardFocusCount := keyboardFocusCount + 1;
      }
      assert seats[..] == old(seats[..])[i := old(seats[i]).(keyboardFocused := true)];
      if keyboardFocusCount == 1 { log := log + [KeyboardFocus(true)]; }
    }

    method OnKeyboardKey(e: Stamp)
      modifies this
      ensures View() == KeyboardKey(old(View()), e)
    {
      if lastKey.Some? && RecentDuplicate(e, lastKey.value) { return; }
      lastKey := Some(e);
      log := log + [KeyChanged(e.value, e.state)];
    }

    method SeatCapabilities(i: nat, pointer: bool, keyboard: bool)
      requires i < seats.Length
      modifies this, seats
      ensures View() == KeyboardCapability(PointerCapability(old(View()), i, pointer), i, keyboard)
    {
      SetPointer(i, pointer);
      SetKeyboard(i, keyboard);
    }

    method SetPointer(i: nat, has: bool)
      requires i < seats.Length
      modifies this, seats
      ensures View() == PointerCapability(old(View()), i, has)
    {
      if has && !seats[i].pointer {
        seats[i] := seats[i].(pointer := true);
      } else if !has {
        ClearPointer(i);
        seats[i] := seats[i].(pointer := false);
      } else {
        assert seats[..] == seats[..][i := seats[i].(pointer := true)];
      }
    }

    method SetKeyboard(i: nat, has: bool)
      requires i < seats.Length
      modifies this, seats
      ensures View() == KeyboardCapability(old(View()), i, has)
    {
      if has && !seats[i].keyboard {
        seats[i] := seats[i].(keyboard := true);
      } else if !has {
        ClearKeyboard(i);
        seats[i] := seats[i].(keyboard := false);
      } else {
        assert seats[..] == seats[..][i := seats[i].(keyboard := true)];
      }
    }

    method DestroyInputSeat(i: nat)
      requires i < seats.Length
      modifies this, seats
      ensures View() == DestroySeat(old(View()), i)
    {
      ClearPointer(i);
      ClearKeyboard(i);
      seats[i] := ZERO;
    }

    /** `ok` is whether the registry gives a proxy. */
    method TryBind(name: nat, ok: bool)
      modifies this, seats
      ensures View() == Bind(old(View()), name, ok)
    {
      var i := 0;
      while i < seats.Length && seats[i].bound
        invariant 0 <= i <= seats.Length
        invariant FreeSlot(seats[..], 0) == FreeSlot(seats[..], i)
      {
        i := i + 1;
      }
      if i == seats.Length { return; }
      seats[i] := seats[i].(registryName := name, index := seatCount);
      seatCount := (seatCount + 1) % WORD;
      if !ok {
        seats[i] := ZERO;
      } else {
        seats[i] := seats[i].(bound := true);
      }
    }

    method GlobalRemove(name: nat)
      modifies this, seats
      ensures View() == Remove(old(View()), name)
    {
      var i := 0;
      while i < seats.Length
        invariant 0 <= i <= seats.Length
        invariant View() == old(View())
        invariant SlotNamed(seats[..], name, 0) == SlotNamed(seats[..], name, i)
      {
        if seats[i].bound && seats[i].registryName == name {
          DestroyInputSeat(i);
          return;
        }
        i := i + 1;
      }
    }

    method Destroy()
      modifies this, seats
      ensures View() == DestroyFirst(old(View()), seats.Length)
    {
      var i := 0;
      while i < seats.Length
        invariant 0 <= i <= seats.Length
        invariant View() == DestroyFirst(old(View()), i)
      {
        if seats[i].bound { DestroyInputSeat(i); }
        i := i + 1;
      }
    }
  }
}
