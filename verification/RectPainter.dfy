/** The clipped rectangle painter of the CPU renderer (native/wayland_rect.c): in-place
    writes to a row-major pixel buffer.

    The buffer is compared with a picture, which says of every pixel what colour it has
    after a sequence of calls. */
module RectPainter {
  import opened Common

  type Pixel = c: int | 0 <= c < 0x1_0000_0000

  datatype Rect = Rect(x: int, y: int, w: int, h: int)

  /** Mathematical cover, with no clipping: empty when a side is not positive. */
  predicate Covers(r: Rect, px: int, py: int) {
    r.x <= px < r.x + r.w && r.y <= py < r.y + r.h
  }

  /** The sums the painter computes do not overflow. */
  predicate InRange(r: Rect) {
    InInt32(r.x) && InInt32(r.y) && InInt32(r.x + r.w) && InInt32(r.y + r.h)
  }

  /** The lower end is tested first, so it wins when the ends are crossed, as they are for the
      card of a narrow surface. */
  function Clampi(v: int, lo: int, hi: int): (r: int)
    ensures v < lo ==> r == lo
    ensures lo <= v && v <= hi ==> r == v
    ensures lo <= v && v > hi ==> r == hi
    ensures lo <= hi ==> lo <= r <= hi
    ensures hi < lo ==> r == if v < lo then lo else hi
  {
    if v < lo then lo else if v > hi then hi else v
  }

  // ------------------------------------------------------------------ the pixel grid

  function Index(sw: nat, px: nat, py: nat): nat {
    py * sw + px
  }

  lemma {:induction false} IndexInside(sw: nat, sh: nat, px: nat, py: nat)
    requires px < sw && py < sh
    ensures Index(sw, px, py) < sw * sh
  {
    RowOrder(sw, py, sh);
  }

  lemma {:induction false} RowOrder(sw: nat, a: nat, b: nat)
    requires a < b
    ensures a * sw + sw <= b * sw
  {
    if a + 1 < b { RowOrder(sw, a, b - 1); }
  }

  lemma {:induction false} IndexInjective(sw: nat, px: nat, py: nat, qx: nat, qy: nat)
    requires px < sw && qx < sw && Index(sw, px, py) == Index(sw, qx, qy)
    ensures px == qx && py == qy
  {
    if py < qy { RowOrder(sw, py, qy); }
    if qy < py { RowOrder(sw, qy, py); }
  }

  ghost predicate OnGrid(sw: nat, sh: nat, n: nat) {
    forall px: nat, py: nat | px < sw && py < sh :: Index(sw, px, py) < n
  }

  ghost predicate Separate(sw: nat) {
    forall px: nat, py: nat, qx: nat, qy: nat | px < sw && qx < sw && (px, py) != (qx, qy) ::
      Index(sw, px, py) != Index(sw, qx, qy)
  }

  lemma {:induction false} GridIsSound(sw: nat, sh: nat)
    ensures OnGrid(sw, sh, sw * sh) && Separate(sw)
  {
    forall px: nat, py: nat | px < sw && py < sh ensures Index(sw, px, py) < sw * sh {
      IndexInside(sw, sh, px, py);
    }
    forall px: nat, py: nat, qx: nat, qy: nat | px < sw && qx < sw && (px, py) != (qx, qy)
      ensures Index(sw, px, py) != Index(sw, qx, qy)
    {
      if Index(sw, px, py) == Index(sw, qx, qy) { IndexInjective(sw, px, py, qx, qy); }
    }
  }

  // ------------------------------------------------------------------------ painting

  /** Every pixel of the grid: the colour where the region holds, otherwise as before. */
  ghost predicate Fills(before: seq<Pixel>, after: seq<Pixel>, sw: nat, sh: nat, region: (int, int) -> bool, c: Pixel) {
    && |after| == |before|
    && OnGrid(sw, sh, |before|)
    && forall px: nat, py: nat | px < sw && py < sh ::
         after[Index(sw, px, py)] == if region(px, py) then c else before[Index(sw, px, py)]
  }

  ghost function RectRegion(r: Rect): (int, int) -> bool {
    (px, py) => Covers(r, px, py)
  }

  /** rect: off-screen, negative and partly visible rectangles are clipped; every write is
      inside the buffer. */
  method FillRect(p: array<Pixel>, sw: nat, sh: nat, r: Rect, c: Pixel)
    requires p.Length == sw * sh && InRange(r)
    modifies p
    ensures Fills(old(p[..]), p[..], sw, sh, RectRegion(r), c)
  {
    var x0: nat, y0: nat := Clampi(r.x, 0, sw), Clampi(r.y, 0, sh);
    var x1, y1 := Clampi(r.x + r.w, 0, sw), Clampi(r.y + r.h, 0, sh);
    GridIsSound(sw, sh);
    hide Index;
    ghost var before := p[..];
    var yy := y0;
    while yy < y1
      invariant y0 <= yy && (yy <= y1 || yy == y0)
      invariant forall px: nat, py: nat | px < sw && py < sh ::
        p[Index(sw, px, py)] == if x0 <= px < x1 && y0 <= py < yy then c else before[Index(sw, px, py)]
    {
      var xx := x0;
      while xx < x1
        invariant x0 <= xx && (xx <= x1 || xx == x0)
        invariant forall px: nat, py: nat | px < sw && py < sh ::
          p[Index(sw, px, py)] ==
            if x0 <= px < x1 && (y0 <= py < yy || (py == yy && px < xx)) then c else before[Index(sw, px, py)]
      {
        p[Index(sw, xx, yy)] := c;
        xx := xx + 1;
      }
      yy := yy + 1;
    }
  }

  /** The picture is determined: Fills says everything about the buffer. */
  lemma {:induction false} FillsDeterministic(
    before: seq<Pixel>, a: seq<Pixel>, b: seq<Pixel>, sw: nat, sh: nat, region: (int, int) -> bool, c: Pixel)
    requires |before| == sw * sh
    requires Fills(before, a, sw, sh, region, c) && Fills(before, b, sw, sh, region, c)
    ensures a == b
  {
    forall i | 0 <= i < sw * sh ensures a[i] == b[i] {
      var px, py := OfIndex(sw, sh, i);
    }
  }

  lemma {:induction false} OfIndex(sw: nat, sh: nat, i: nat) returns (px: nat, py: nat)
    requires i < sw * sh
    ensures px < sw && py < sh && Index(sw, px, py) == i
  {
    if i < sw * (sh - 1) {
      px, py := OfIndex(sw, sh - 1, i);
    } else {
      py := sh - 1;
      px := i - sw * py;
      assert sw * sh == sw * py + sw;
    }
  }

  // --------------------------------------------------------------------- outlines

  function Bar(r: Rect, t: int, k: nat): Rect {
    if k == 0 then Rect(r.x, r.y, r.w, t)
    else if k == 1 then Rect(r.x, r.y + r.h - t, r.w, t)
    else if k == 2 then Rect(r.x, r.y, t, r.h)
    else Rect(r.x + r.w - t, r.y, t, r.h)
  }

  predicate BarsInRange(r: Rect, t: int) {
    InRange(Bar(r, t, 0)) && InRange(Bar(r, t, 1)) && InRange(Bar(r, t, 2)) && InRange(Bar(r, t, 3))
  }

  predicate OnOutline(r: Rect, t: int, px: int, py: int) {
    Covers(Bar(r, t, 0), px, py) || Covers(Bar(r, t, 1), px, py)
    || Covers(Bar(r, t, 2), px, py) || Covers(Bar(r, t, 3), px, py)
  }

  ghost function OutlineRegion(r: Rect, t: int): (int, int) -> bool {
    (px, py) => OnOutline(r, t, px, py)
  }

  method Outline(p: array<Pixel>, sw: nat, sh: nat, r: Rect, t: int, c: Pixel)
    requires p.Length == sw * sh
    requires BarsInRange(r, t)
    modifies p
    ensures Fills(old(p[..]), p[..], sw, sh, OutlineRegion(r, t), c)
  {
    hide Index, InRange;
    FillRect(p, sw, sh, Bar(r, t, 0), c);
    FillRect(p, sw, sh, Bar(r, t, 1), c);
    FillRect(p, sw, sh, Bar(r, t, 2), c);
    FillRect(p, sw, sh, Bar(r, t, 3), c);
  }

  /** A frame no thicker than its rectangle is the rectangle without its inner part. */
  lemma OutlineIsFrame(r: Rect, t: int, px: int, py: int)
    requires 0 <= t <= r.w && t <= r.h
    ensures OnOutline(r, t, px, py) <==>
      Covers(r, px, py) && !Covers(Rect(r.x + t, r.y + t, r.w - 2 * t, r.h - 2 * t), px, py)
  {
  }

  /** An outline stays inside its rectangle exactly when it is not thicker than a side
      along which the other bars have any length. */
  lemma {:induction false} OutlineInsideIff(r: Rect, t: int)
    requires r.w >= 0 && r.h >= 0 && t >= 0
    ensures (forall px, py :: OnOutline(r, t, px, py) ==> Covers(r, px, py))
      <==> (t <= r.w || r.h == 0) && (t <= r.h || r.w == 0)
  {
    if t > r.w && r.h > 0 { assert OnOutline(r, t, r.x + r.w, r.y); }
    if t > r.h && r.w > 0 { assert OnOutline(r, t, r.x, r.y + r.h); }
  }

  // ------------------------------------------- a sequence of rectangles and outlines

  datatype Command =
    | PaintRect(r: Rect, c: Pixel)
    | PaintOutline(r: Rect, t: int, c: Pixel)

  /** The sums that painting computes do not overflow. */
  predicate CommandInRange(cmd: Command) {
    match cmd
    case PaintRect(r, _) => InRange(r)
    case PaintOutline(r, t, _) => BarsInRange(r, t)
  }

  /** The command covers the pixel. */
  predicate Reaches(cmd: Command, px: int, py: int) {
    match cmd
    case PaintRect(r, _) => Covers(r, px, py)
    case PaintOutline(r, t, _) => OnOutline(r, t, px, py)
  }

  /** The last command that covers the pixel, or -1. */
  function LastCovering(cmds: seq<Command>, px: int, py: int): (k: int)
    ensures -1 <= k < |cmds|
    ensures k >= 0 ==> Reaches(cmds[k], px, py)
    ensures forall j | k < j < |cmds| :: !Reaches(cmds[j], px, py)
  {
    if cmds == [] then -1
    else if Reaches(cmds[|cmds| - 1], px, py) then |cmds| - 1
    else LastCovering(cmds[..|cmds| - 1], px, py)
  }

  /** The colour of the last command that covers the pixel, or the old one when none does. */
  function Wanted(cmds: seq<Command>, px: int, py: int, was: Pixel): Pixel {
    var k := LastCovering(cmds, px, py);
    if k >= 0 then cmds[k].c else was
  }

  /** Every pixel of the grid has its wanted colour. */
  ghost predicate Painted(before: seq<Pixel>, after: seq<Pixel>, sw: nat, sh: nat, cmds: seq<Command>) {
    && |after| == |before|
    && OnGrid(sw, sh, |before|)
    && forall px: nat, py: nat | px < sw && py < sh ::
         after[Index(sw, px, py)] == Wanted(cmds, px, py, before[Index(sw, px, py)])
  }

  ghost function Region(cmd: Command): (int, int) -> bool {
    (px, py) => Reaches(cmd, px, py)
  }

  lemma {:induction false} WantedStep(cmds: seq<Command>, cmd: Command, px: int, py: int, was: Pixel)
    ensures Wanted(cmds + [cmd], px, py, was) == if Reaches(cmd, px, py) then cmd.c else Wanted(cmds, px, py, was)
  {
    assert (cmds + [cmd])[..|cmds|] == cmds;
  }

  /** One more command over a painted picture. */
  lemma {:induction false} PaintedStep(
      before: seq<Pixel>, middle: seq<Pixel>, after: seq<Pixel>, sw: nat, sh: nat, cmds: seq<Command>, cmd: Command)
    requires Painted(before, middle, sw, sh, cmds)
    requires Fills(middle, after, sw, sh, Region(cmd), cmd.c)
    ensures Painted(before, after, sw, sh, cmds + [cmd])
  {
    hide Index, Wanted, Reaches, OnGrid;
    forall px: nat, py: nat | px < sw && py < sh
      ensures Index(sw, px, py) < |before|
      ensures after[Index(sw, px, py)] == Wanted(cmds + [cmd], px, py, before[Index(sw, px, py)])
    {
      GridHas(sw, sh, |before|, px, py);
      WantedStep(cmds, cmd, px, py, before[Index(sw, px, py)]);
    }
  }

  lemma GridHas(sw: nat, sh: nat, n: nat, px: nat, py: nat)
    requires OnGrid(sw, sh, n) && px < sw && py < sh
    ensures Index(sw, px, py) < n
  {
  }

  method Execute(p: array<Pixel>, sw: nat, sh: nat, cmd: Command)
    requires p.Length == sw * sh && CommandInRange(cmd)
    modifies p
    ensures Fills(old(p[..]), p[..], sw, sh, Region(cmd), cmd.c)
  {
    hide Index, InRange, OnOutline, Covers;
    match cmd {
      case PaintRect(r, c) => FillRect(p, sw, sh, r, c);
      case PaintOutline(r, t, c) => Outline(p, sw, sh, r, t, c);
    }
  }

  /** A picture drawn by any sequence of rect and outline calls, whatever their overlaps:
      each pixel ends with the colour of the last call that covers it, or its old colour. */
  method PaintAll(p: array<Pixel>, sw: nat, sh: nat, cmds: seq<Command>)
    requires p.Length == sw * sh && forall k | 0 <= k < |cmds| :: CommandInRange(cmds[k])
    modifies p
    ensures Painted(old(p[..]), p[..], sw, sh, cmds)
  {
    GridIsSound(sw, sh);
    ghost var before := p[..];
    NothingPainted(before, sw, sh);
    hide Painted, Fills, CommandInRange;
    for k := 0 to |cmds|
      invariant Painted(before, p[..], sw, sh, cmds[..k])
    {
      ghost var middle := p[..];
      Execute(p, sw, sh, cmds[k]);
      PaintedStep(before, middle, p[..], sw, sh, cmds[..k], cmds[k]);
      assert cmds[..k] + [cmds[k]] == cmds[..k + 1];
    }
    assert cmds[..|cmds|] == cmds;
  }

  lemma NothingPainted(before: seq<Pixel>, sw: nat, sh: nat)
    requires OnGrid(sw, sh, |before|)
    ensures Painted(before, before, sw, sh, [])
  {
  }

  /** The sequence determines the whole buffer. */
  lemma {:induction false} PaintedDeterministic(
      before: seq<Pixel>, a: seq<Pixel>, b: seq<Pixel>, sw: nat, sh: nat, cmds: seq<Command>)
    requires |before| == sw * sh
    requires Painted(before, a, sw, sh, cmds) && Painted(before, b, sw, sh, cmds)
    ensures a == b
  {
    hide Wanted;
    forall i | 0 <= i < sw * sh ensures a[i] == b[i] {
      var px, py := OfIndex(sw, sh, i);
    }
  }

  /** Where a later command covers the pixel, everything before it is lost. */
  lemma {:induction false} OverpaintedIsLost(
      cmds: seq<Command>, cmd: Command, rest: seq<Command>, px: int, py: int, was: Pixel)
    requires Reaches(cmd, px, py)
    ensures Wanted(cmds + [cmd] + rest, px, py, was) == Wanted([cmd] + rest, px, py, was)
  {
    if rest == [] {
      assert cmds + [cmd] + rest == cmds + [cmd] && [cmd] + rest == [] + [cmd];
      WantedStep(cmds, cmd, px, py, was);
      WantedStep([], cmd, px, py, was);
    } else {
      var n := |rest| - 1;
      OverpaintedIsLost(cmds, cmd, rest[..n], px, py, was);
      assert cmds + [cmd] + rest == cmds + [cmd] + rest[..n] + [rest[n]];
      assert [cmd] + rest == [cmd] + rest[..n] + [rest[n]];
      WantedStep(cmds + [cmd] + rest[..n], rest[n], px, py, was);
      WantedStep([cmd] + rest[..n], rest[n], px, py, was);
    }
  }
}
