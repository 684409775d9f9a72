/** The frame-callback chain of the EGL renderer (native/wayland_egl.c), driven by the shell.
    Wayland core protocol, wl_surface.frame and wl_callback.done: only a live callback fires. */
module EglRenderer {
  import opened Common
  import opened WebosShell

  /** Callback ids count the calls of wl_surface_frame. `destroyed` and `notified` are
      history: the callbacks destroyed and the visibilities notified, in order. */
  datatype Renderer = Renderer(
    shell: Context,
    eglReady: bool,
    running: bool,
    renderVisible: bool,
    frameCb: Option<nat>,
    created: nat,
    frame: nat,
    destroyed: seq<nat>,
    notified: seq<bool>)

  const START := Renderer(INITIAL, false, true, true, None, 0, 0, [], [])

  datatype Event =
    | Setup
    | StateChanged(state: SurfaceState)
    | Exposed(values: seq<int>)
    | Close
    | FrameDone

  // ---------------------------------------------------------------- specification

  function Drop(r: Renderer): Renderer {
    if r.frameCb.None? then r else r.(frameCb := None, destroyed := r.destroyed + [r.frameCb.value])
  }

  function Render(r: Renderer, swapOk: bool): Renderer {
    if !r.running || !r.renderVisible then r
    else
      var d := Drop(r);
      d.(frameCb := Some(d.created), created := d.created + 1, running := swapOk)
  }

  function VisibilityChanged(r: Renderer, visible: bool, swapOk: bool): Renderer {
    var v := r.(renderVisible := visible, notified := r.notified + [visible]);
    if !visible then Drop(v)
    else if v.running && v.frameCb.None? && v.eglReady then Render(v, swapOk)
    else v
  }

  function Notify(r: Renderer, shell: Context, swapOk: bool): Renderer {
    var u := r.(shell := Update(shell));
    if Notification(shell).None? then u else VisibilityChanged(u, Notification(shell).value, swapOk)
  }

  function Done(r: Renderer, swapOk: bool): Renderer {
    var d := Drop(r);
    if !d.running || !d.renderVisible then d else Render(d.(frame := d.frame + 1), swapOk)
  }

  /** swapOk is the outcome of eglSwapBuffers should the event render a frame. */
  function Step(r: Renderer, e: Event, swapOk: bool): Renderer {
    match e
    case Setup => Render(r.(eglReady := true), swapOk)
    case StateChanged(state) => Notify(r, WithState(r.shell, state), swapOk)
    case Exposed(values) => Notify(r, WithExposed(r.shell, values), swapOk)
    case Close => r.(running := false)
    case FrameDone => Done(r, swapOk)
  }

  predicate Possible(r: Renderer, e: Event) {
    match e
    case Setup => !r.eglReady
    case FrameDone => r.frameCb.Some?
    case _ => true
  }

  datatype Input = Input(event: Event, swapOk: bool)

  function Run(es: seq<Input>): Renderer {
    if es == [] then START
    else Step(Run(es[..|es| - 1]), es[|es| - 1].event, es[|es| - 1].swapOk)
  }

  predicate PossibleRun(es: seq<Input>) {
    es == [] || (PossibleRun(es[..|es| - 1]) && Possible(Run(es[..|es| - 1]), es[|es| - 1].event))
  }

  // -------------------------------------------------------------------- the invariants

  /** After setup a running, visible renderer always has a callback pending, and a hidden
      one never has. */
  predicate ChainAlive(r: Renderer) {
    && (r.eglReady && r.running && r.renderVisible ==> r.frameCb.Some?)
    && (r.frameCb.Some? ==> r.renderVisible && r.eglReady)
  }

  /** Every callback created is destroyed exactly once, in order, or is the live one. */
  predicate CallbacksBalanced(r: Renderer) {
    && (forall i | 0 <= i < |r.destroyed| :: r.destroyed[i] == i)
    && (match r.frameCb
        case None => r.created == |r.destroyed|
        case Some(id) => id == |r.destroyed| && r.created == id + 1)
  }

  /** The renderer follows the shell, and is told hidden, visible, hidden, … in turn. */
  predicate FollowsShell(r: Renderer) {
    && r.renderVisible == r.shell.effectiveVisible == Visible(r.shell)
    && (forall i | 0 <= i < |r.notified| :: r.notified[i] == (i % 2 == 1))
    && r.renderVisible == (|r.notified| % 2 == 0)
  }

  predicate Sound(r: Renderer) {
    ChainAlive(r) && CallbacksBalanced(r) && FollowsShell(r)
  }

  lemma {:induction false} StepKeepsSound(r: Renderer, e: Event, swapOk: bool)
    requires Sound(r) && Possible(r, e)
    ensures Sound(Step(r, e, swapOk))
  {
    match e
    case Setup =>
    case StateChanged(state) => NotifyKeepsSound(r, WithState(r.shell, state), swapOk);
    case Exposed(values) => NotifyKeepsSound(r, WithExposed(r.shell, values), swapOk);
    case Close =>
    case FrameDone =>
  }

  lemma {:induction false} NotifyKeepsSound(r: Renderer, shell: Context, swapOk: bool)
    requires Sound(r) && shell.effectiveVisible == r.shell.effectiveVisible
    ensures Sound(Notify(r, shell, swapOk))
  {
  }

  /** In every reachable state of the renderer the three invariants hold. */
  lemma {:induction false} RunIsSound(es: seq<Input>)
    requires PossibleRun(es)
    ensures Sound(Run(es))
  {
    if es != [] {
      RunIsSound(es[..|es| - 1]);
      StepKeepsSound(Run(es[..|es| - 1]), es[|es| - 1].event, es[|es| - 1].swapOk);
    }
  }

  /** A surface that is hidden and stays hidden submits no frame, whatever happens. */
  lemma {:induction false} NothingSubmittedWhileHidden(es: seq<Input>, x: Input)
    requires PossibleRun(es) && Possible(Run(es), x.event)
    requires !Run(es).renderVisible && !Step(Run(es), x.event, x.swapOk).renderVisible
    ensures var r, s := Run(es), Step(Run(es), x.event, x.swapOk);
      (s.created, s.frame, s.frameCb) == (r.created, r.frame, None)
  {
    RunIsSound(es);
  }

  /** Becoming visible again restarts the chain at once. */
  lemma {:induction false} VisibleAgainRestarts(es: seq<Input>, x: Input)
    requires PossibleRun(es) && Possible(Run(es), x.event)
    requires Run(es).eglReady && Run(es).running && !Run(es).renderVisible
    requires Step(Run(es), x.event, x.swapOk).renderVisible
    ensures var r, s := Run(es), Step(Run(es), x.event, x.swapOk);
      (s.created, s.frameCb, s.running) == (r.created + 1, Some(r.created), x.swapOk)
  {
    RunIsSound(es);
  }

  // ------------------------------------------------------ the state from the events alone

  ghost predicate LastState(es: seq<Input>, i: nat) {
    i < |es| && es[i].event.StateChanged? && forall k | i < k < |es| :: !es[k].event.StateChanged?
  }

  ghost predicate LastExposed(es: seq<Input>, i: nat) {
    i < |es| && es[i].event.Exposed? && forall k | i < k < |es| :: !es[k].event.Exposed?
  }

  lemma RenderKeepsShell(r: Renderer, swapOk: bool)
    ensures Render(r, swapOk).shell == r.shell && Done(r, swapOk).shell == r.shell
  {
  }

  lemma NotifySetsShell(r: Renderer, shell: Context, swapOk: bool)
    ensures Notify(r, shell, swapOk).shell == shell.(effectiveVisible := Visible(shell))
  {
    hide Visible, Render;
    RenderKeepsShell(r.(shell := Update(shell), renderVisible := true, notified := r.notified + [true]), swapOk);
  }

  lemma ShellStep(r: Renderer, x: Input)
    ensures var c, d := r.shell, Step(r, x.event, x.swapOk).shell;
      && d.stateVisible == (if x.event.StateChanged? then !x.event.state.Minimized? else c.stateVisible)
      && (d.haveExposed ==> d.exposedVisible)
        == (if x.event.Exposed? then SomeRectangleShows(x.event.values) else c.haveExposed ==> c.exposedVisible)
  {
    hide SomeRectangleShows, Visible, Notify, Render, Done;
    match x.event
    case Setup => RenderKeepsShell(r.(eglReady := true), x.swapOk);
    case FrameDone => RenderKeepsShell(r, x.swapOk);
    case StateChanged(state) => NotifySetsShell(r, WithState(r.shell, state), x.swapOk);
    case Exposed(values) => NotifySetsShell(r, WithExposed(r.shell, values), x.swapOk);
    case Close =>
  }

  lemma {:induction false} ShellFollowsEvents(es: seq<Input>)
    ensures var c := Run(es).shell;
      (c.stateVisible, c.haveExposed ==> c.exposedVisible)
        == (forall i: nat | LastState(es, i) :: !es[i].event.state.Minimized?,
            forall i: nat | LastExposed(es, i) :: SomeRectangleShows(es[i].event.values))
  {
    hide Step, SomeRectangleShows;
    if es != [] {
      var n := |es| - 1;
      ShellFollowsEvents(es[..n]);
      ShellStep(Run(es[..n]), es[n]);
      assert forall i | 0 <= i < n :: es[..n][i] == es[i];
      if es[n].event.StateChanged? {
        assert LastState(es, n);
      } else {
        assert forall i: nat :: LastState(es, i) <==> LastState(es[..n], i);
      }
      if es[n].event.Exposed? {
        assert LastExposed(es, n);
      } else {
        assert forall i: nat :: LastExposed(es, i) <==> LastExposed(es[..n], i);
      }
    }
  }

  /** Over every run the renderer is visible exactly when the last state it was told of, if any,
      was not minimized and the last exposed region, if any, showed a rectangle. */
  lemma {:induction false} RunVisibleIff(es: seq<Input>)
    requires PossibleRun(es)
    ensures Run(es).renderVisible <==>
      && (forall i: nat | LastState(es, i) :: !es[i].event.state.Minimized?)
      && (forall i: nat | LastExposed(es, i) :: SomeRectangleShows(es[i].event.values))
  {
    RunIsSound(es);
    ShellFollowsEvents(es);
  }

  /** What an event does to the callbacks, the counters and the run. A frame is submitted by the
      setup and by a frame event of a renderer that runs and is visible, and by an event that
      shows the surface again after the setup; its callback takes the place of the one before.
      A frame event counts the frame, and ends the chain when nothing is submitted; so does
      hiding. Only closing and a failed swap end the run. */
  predicate Effects(r: Renderer, s: Renderer, e: Event, swapOk: bool) {
    var draws := r.running && s.renderVisible && s.eglReady && (e.Setup? || e.FrameDone? || !r.renderVisible);
    var drops := e.FrameDone? || (r.frameCb.Some? && !s.renderVisible);
    && s.frameCb == (if draws then Some(r.created) else if drops then None else r.frameCb)
    && s.destroyed == (if drops && r.frameCb.Some? then r.destroyed + [r.frameCb.value] else r.destroyed)
    && (s.created, s.eglReady) == (r.created + if draws then 1 else 0, r.eglReady || e.Setup?)
    && s.running == (r.running && !e.Close? && (draws ==> swapOk))
    && s.frame == r.frame + if e.FrameDone? && r.running && r.renderVisible then 1 else 0
  }

  lemma NotifyEffect(r: Renderer, shell: Context, e: Event, swapOk: bool)
    requires ChainAlive(r) && r.renderVisible == shell.effectiveVisible && (e.StateChanged? || e.Exposed?)
    ensures Effects(r, Notify(r, shell, swapOk), e, swapOk)
  {
    hide Visible;
  }

  lemma {:induction false} SoundEffect(r: Renderer, e: Event, swapOk: bool)
    requires ChainAlive(r) && r.renderVisible == r.shell.effectiveVisible && Possible(r, e)
    ensures Effects(r, Step(r, e, swapOk), e, swapOk)
  {
    hide SomeRectangleShows;
    match e
    case StateChanged(state) => NotifyEffect(r, WithState(r.shell, state), e, swapOk);
    case Exposed(values) => NotifyEffect(r, WithExposed(r.shell, values), e, swapOk);
    case _ =>
  }

  /** Every event of every run does that. */
  lemma {:induction false} RunEffects(es: seq<Input>)
    requires PossibleRun(es) && es != []
    ensures var n := |es| - 1; Effects(Run(es[..n]), Run(es), es[n].event, es[n].swapOk)
  {
    var n := |es| - 1;
    RunIsSound(es[..n]);
    SoundEffect(Run(es[..n]), es[n].event, es[n].swapOk);
  }

  /** The frame events of a run that find the renderer running and visible. */
  ghost function Frames(es: seq<Input>): set<nat> {
    set i: nat | i < |es| && es[i].event.FrameDone? && Run(es[..i]).running && Run(es[..i]).renderVisible
  }

  lemma FramesGrow(es: seq<Input>)
    requires es != []
    ensures var n := |es| - 1;
      |Frames(es)| == |Frames(es[..n])|
        + if es[n].event.FrameDone? && Run(es[..n]).running && Run(es[..n]).renderVisible then 1 else 0
  {
    hide Run;
    var n := |es| - 1;
    forall i: nat ensures i in Frames(es[..n]) <==> i in Frames(es) && i != n {
      if i < n { assert es[..n][..i] == es[..i] && es[..n][i] == es[i]; }
    }
    assert Frames(es[..n]) == Frames(es) - {n};
  }

  /** Event `i` is not a close, nor a frame whose swap fails. */
  ghost predicate GoesOn(es: seq<Input>, i: nat)
    requires i < |es|
  {
    !es[i].event.Close? && (es[i].swapOk || Run(es[..i + 1]).created == Run(es[..i]).created)
  }

  lemma LastEvent(es: seq<Input>)
    requires PossibleRun(es) && es != []
    ensures var n := |es| - 1; var r, s := Run(es[..n]), Run(es);
      && PossibleRun(es[..n])
      && s.frame == r.frame + (if es[n].event.FrameDone? && r.running && r.renderVisible then 1 else 0)
      && s.running == (r.running && GoesOn(es, n))
  {
    RunEffects(es);
    assert es[..|es|] == es;
    hide Run;
  }

  lemma AtStart()
    ensures PossibleRun([]) && Run([]).frame == 0 == |Frames([])| && Run([]).running
  {
    assert Frames([]) == {};
  }

  /** Over every run the frame counter is the number of those events, and the renderer runs
      until an event that ends the run. */
  lemma {:induction false} RunCountsFrames(es: seq<Input>)
    requires PossibleRun(es)
    ensures (Run(es).frame, Run(es).running) == (|Frames(es)|, forall i | 0 <= i < |es| :: GoesOn(es, i))
  {
    hide PossibleRun, Frames, Run;
    if es == [] {
      AtStart();
    } else {
      var n := |es| - 1;
      LastEvent(es);
      RunCountsFrames(es[..n]);
      FramesGrow(es);
      forall i | 0 <= i < n ensures GoesOn(es[..n], i) == GoesOn(es, i) {
        assert es[..n][..i] == es[..i] && es[..n][..i + 1] == es[..i + 1];
      }
    }
  }

  // ------------------------------------------------------------------- the renderer

  class EglApp {
    const shell: ShellContext
    var eglReady: bool
    var running: bool
    var renderVisible: bool
    var frameCb: Option<nat>
    var frame: nat
    var created: nat
    ghost var destroyed: seq<nat>
    ghost var notified: seq<bool>

    ghost function View(): Renderer
      reads this, shell
    {
      Renderer(shell.View(), eglReady, running, renderVisible, frameCb, created, frame, destroyed, notified)
    }

    constructor ()
      ensures fresh(shell) && View() == START
    {
      shell := new ShellContext();
      eglReady, running, renderVisible, frameCb, frame := false, true, true, None, 0;
      created, destroyed, notified := 0, [], [];
    }

    method DestroyCallback()
      requires frameCb.Some?
      modifies this
      ensures View() == Drop(old(View()))
    {
      destroyed := destroyed + [frameCb.value];
      frameCb := None;
    }

    method RenderFrame(swapOk: bool)
      modifies this
      ensures View() == Render(old(View()), swapOk)
    {
      if !running || !renderVisible { return; }
      if frameCb.Some? { DestroyCallback(); }
      frameCb := Some(created);
      created := created + 1;
      if !swapOk { running := false; }
    }

    method WebosVisibilityChanged(visible: bool, swapOk: bool)
      modifies this
      ensures View() == VisibilityChanged(old(View()), visible, swapOk)
    {
      renderVisible := visible;
      notified := notified + [visible];
      if !visible && frameCb.Some? {
        DestroyCallback();
      } else if visible && running && frameCb.None? && eglReady {
        RenderFrame(swapOk);
      }
    }

    /** A live callback fires. */
    method FrameDoneEvent(swapOk: bool)
      requires frameCb.Some?
      modifies this
      ensures View() == Step(old(View()), FrameDone, swapOk)
    {
      DestroyCallback();
      if !running || !renderVisible { return; }
      frame := frame + 1;
      RenderFrame(swapOk);
    }

    method StateChangedEvent(state: SurfaceState, swapOk: bool)
      modifies this, shell
      ensures View() == Step(old(View()), StateChanged(state), swapOk)
    {
      var notify := shell.HandleStateChanged(state);
      if notify.Some? { WebosVisibilityChanged(notify.value, swapOk); }
    }

    method ExposedEvent(values: seq<int>, swapOk: bool)
      modifies this, shell
      ensures View() == Step(old(View()), Exposed(values), swapOk)
    {
      var notify := shell.HandleExposed(values);
      if notify.Some? { WebosVisibilityChanged(notify.value, swapOk); }
    }

    method WebosCloseRequested()
      modifies this
      ensures View() == Step(old(View()), Close, true)
    {
      running := false;
    }

    /** The end of init_egl and the first render. */
    method SetupEvent(swapOk: bool)
      modifies this
      ensures View() == Step(old(View()), Setup, swapOk)
    {
      eglReady := true;
      RenderFrame(swapOk);
    }
  }
}
