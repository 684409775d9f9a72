/** The visibility machine of the webOS shell surface (native/webos_shell.c). */
module WebosShell {
  import opened Common

  /** The state codes belong to the shell protocol, which is not part of this model. */
  datatype SurfaceState = Minimized | Other(code: nat)

  datatype Context = Context(stateVisible: bool, exposedVisible: bool, haveExposed: bool, effectiveVisible: bool)

  const INITIAL := Context(true, true, false, true)

  /** What the surface should be, from the last state and the last exposed region. */
  function Visible(c: Context): bool {
    c.stateVisible && (!c.haveExposed || c.exposedVisible)
  }

  /** The notification sent to the renderer, if the effective visibility changes. */
  function Notification(c: Context): Option<bool> {
    if Visible(c) == c.effectiveVisible then None else Some(Visible(c))
  }

  function Update(c: Context): Context {
    c.(effectiveVisible := Visible(c))
  }

  function WithState(c: Context, state: SurfaceState): Context {
    c.(stateVisible := !state.Minimized?)
  }

  function WithExposed(c: Context, values: seq<int>): Context {
    c.(haveExposed := true, exposedVisible := SomeRectangleShows(values))
  }

  /** Quadruple `k` is complete, precedes the terminator and has a positive size. */
  predicate RectangleShows(values: seq<int>, k: nat) {
    && 4 * k + 4 <= |values|
    && (forall j | 0 <= j <= k :: values[4 * j] != -1)
    && values[4 * k + 2] > 0 && values[4 * k + 3] > 0
  }

  predicate SomeRectangleShows(values: seq<int>) {
    exists k | 0 <= k < |values| :: RectangleShows(values, k)
  }

  datatype Rectangle = Rectangle(x: int, y: int, width: int, height: int)

  /** The array that the compositor sends for a list of rectangles. */
  function Flatten(rects: seq<Rectangle>): (values: seq<int>)
    ensures |values| == 4 * |rects|
  {
    if rects == [] then []
    else
      var r := rects[|rects| - 1];
      Flatten(rects[..|rects| - 1]) + [r.x, r.y, r.width, r.height]
  }

  lemma {:induction false} FlattenAt(rects: seq<Rectangle>, k: nat)
    requires k < |rects|
    ensures Flatten(rects)[4 * k..4 * k + 4] == [rects[k].x, rects[k].y, rects[k].width, rects[k].height]
  {
    var n, r := |rects| - 1, rects[|rects| - 1];
    var front := Flatten(rects[..n]);
    assert Flatten(rects) == front + [r.x, r.y, r.width, r.height];
    if k < n {
      FlattenAt(rects[..n], k);
      assert Flatten(rects)[4 * k..4 * k + 4] == front[4 * k..4 * k + 4];
    } else {
      assert (front + [r.x, r.y, r.width, r.height])[|front|..] == [r.x, r.y, r.width, r.height];
    }
  }

  /** A list of rectangles, up to the terminator or to values that are too few for one more,
      shows the surface exactly when one of them has a positive width and height. */
  lemma {:induction false} ExposedRectangles(rects: seq<Rectangle>, tail: seq<int>)
    requires forall k | 0 <= k < |rects| :: rects[k].x != -1
    requires |tail| < 4 || tail[0] == -1
    ensures SomeRectangleShows(Flatten(rects) + tail)
       <==> exists k | 0 <= k < |rects| :: rects[k].width > 0 && rects[k].height > 0
  {
    hide Flatten;
    var values := Flatten(rects) + tail;
    forall k | 0 <= k < |rects|
      ensures values[4 * k] != -1
      ensures (values[4 * k + 2], values[4 * k + 3]) == (rects[k].width, rects[k].height)
    {
      FlattenAt(rects, k);
      var four := Flatten(rects)[4 * k..4 * k + 4];
      assert values[4 * k] == four[0] && values[4 * k + 2] == four[2] && values[4 * k + 3] == four[3];
    }
    if k :| 0 <= k < |rects| && rects[k].width > 0 && rects[k].height > 0 {
      forall j | 0 <= j <= k ensures values[4 * j] != -1 { assert rects[j].x != -1; }
      assert RectangleShows(values, k);
    }
    assert |tail| >= 4 ==> values[4 * |rects|] == -1;
    if k :| 0 <= k < |values| && RectangleShows(values, k) {
      assert k < |rects|;
      assert rects[k].width > 0 && rects[k].height > 0;
    }
  }

  class ShellContext {
    var stateVisible: bool
    var exposedVisible: bool
    var haveExposed: bool
    var effectiveVisible: bool

    ghost function View(): Context
      reads this
    {
      Context(stateVisible, exposedVisible, haveExposed, effectiveVisible)
    }

    constructor ()
      ensures View() == INITIAL
    {
      stateVisible, exposedVisible, haveExposed, effectiveVisible := true, true, false, true;
    }

    /** The handler call is the last thing the source does, so it is returned. */
    method UpdateVisibility() returns (notify: Option<bool>)
      modifies this
      ensures View() == Update(old(View())) && notify == Notification(old(View()))
    {
      var visible := stateVisible && (!haveExposed || exposedVisible);
      if visible == effectiveVisible { return None; }
      effectiveVisible := visible;
      return Some(visible);
    }

    method HandleStateChanged(state: SurfaceState) returns (notify: Option<bool>)
      modifies this
      ensures View() == Update(WithState(old(View()), state))
      ensures notify == Notification(WithState(old(View()), state))
    {
      stateVisible := !state.Minimized?;
      notify := UpdateVisibility();
    }

    /** values is empty when the compositor sends no array. */
    method HandleExposed(values: seq<int>) returns (notify: Option<bool>)
      modifies this
      ensures View() == Update(WithExposed(old(View()), values))
      ensures notify == Notification(WithExposed(old(View()), values))
    {
      var visible := ScanExposed(values);
      haveExposed := true;
      exposedVisible := visible;
      notify := UpdateVisibility();
    }
  }

  /** The loop of handle_exposed: stop at -1 and at an incomplete quadruple. */
  method ScanExposed(values: seq<int>) returns (visible: bool)
    ensures visible <==> SomeRectangleShows(values)
  {
    visible := false;
    ghost var k := 0;
    var i := 0;
    while i < |values|
      invariant i == 4 * k <= |values|
      invariant forall j | 0 <= j < k :: values[4 * j] != -1
      invariant visible <==> exists j | 0 <= j < k :: RectangleShows(values, j)
    {
      if values[i] == -1 { break; }
      if |values| - i < 4 { break; }
      assert RectangleShows(values, k) <==> values[i + 2] > 0 && values[i + 3] > 0;
      if values[i + 2] > 0 && values[i + 3] > 0 { visible := true; }
      k := k + 1;
      i := i + 4;
    }
    assert forall j | k <= j < |values| :: !RectangleShows(values, j);
  }
}
