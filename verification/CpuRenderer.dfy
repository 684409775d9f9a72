/** The shared-memory buffer pool and the render loop of the CPU renderer
    (native/wayland_rect.c). Wayland core protocol, wl_buffer.release and wl_callback.done:
    only live proxies receive events, and only attached buffers are released. */
module CpuRenderer {
  import opened Common
  import RectPainter

  const NUM_BUFS: nat := 3
  /** Every allocation succeeds. */
  const ALL_OK: seq<bool> := [true, true, true]

  // ----------------------------------------------------------------- buffer sizes

  /** The width of size_t: 32 bits on the target, 64 on a development machine. */
  datatype SizeT = Bits32 | Bits64 {
    function Values(): (n: nat)
      ensures n > INT32_MAX
    {
      if Bits32? then WORD else 0x1_0000_0000_0000_0000
    }
  }

  /** The size computed by init_buffer in the arithmetic of size_t. */
  function BufferSize(width: int, height: int, sizeT: SizeT): Option<nat> {
    if width <= 0 || height <= 0 || width > INT32_MAX / 4 then None
    else
      var size := width * 4 * height % sizeT.Values();
      if size > INT32_MAX then None else Some(size)
  }

  lemma {:induction false} ProductBound(a: int, b: int, c: int, d: int)
    requires 0 < a <= b && 0 < c <= d
    ensures 0 < a * c <= b * d
  {
    assert b * d == a * c + (b - a) * c + b * (d - c);
  }

  /** An accepted size is 4*w*h reduced to the width of size_t, so it is the exact size
      precisely when that product does not reach the number of values of size_t. */
  lemma {:induction false} SizeExactIff(width: int, height: int, sizeT: SizeT)
    requires BufferSize(width, height, sizeT).Some?
    ensures var size := BufferSize(width, height, sizeT).value;
      && size == 4 * width * height % sizeT.Values() && size <= INT32_MAX
      && (size == 4 * width * height <==> 4 * width * height < sizeT.Values())
  {
    ProductBound(width * 4, width * 4, height, height);
    Reassociate(width, height);
    SmallRemainder(4 * width * height, sizeT.Values());
  }

  lemma Reassociate(width: int, height: int)
    ensures width * 4 * height == 4 * width * height
  {
  }

  lemma SmallRemainder(n: nat, m: nat)
    requires m > 0
    ensures n % m == n <==> n < m
  {
  }

  /** A 64-bit size_t never wraps, so an accepted size is the exact one and fits the signed
      32-bit pool size of the protocol, and a size is refused only when it does not. */
  lemma {:induction false} SizeExact64(width: int, height: int)
    requires InInt32(width) && InInt32(height)
    ensures match BufferSize(width, height, Bits64)
      case Some(size) => size == 4 * width * height && 0 < size <= INT32_MAX
      case None => width <= 0 || height <= 0 || width > INT32_MAX / 4 || 4 * width * height > INT32_MAX
  {
    if width > 0 && height > 0 && width <= INT32_MAX / 4 {
      ProductBound(width * 4, INT32_MAX, height, INT32_MAX);
    }
  }

  /** Dimensions that a 32-bit size_t accepts with a size 2^32 short of the exact one. */
  lemma SizeWrapsAt32()
    ensures BufferSize(65536, 16385, Bits32) == Some(262144)
    ensures 4 * 65536 * 16385 == WORD + 262144
  {
  }

  // ------------------------------------------------------------------- the pool

  /** A slot of the pool; all zero when it holds no wl_buffer. */
  datatype Buffer = Buffer(live: bool, id: nat, size: nat, width: int, height: int, busy: bool)

  const EMPTY := Buffer(false, 0, 0, 0, 0, false)

  datatype Pool = Pool(bufs: seq<Buffer>, width: int, height: int, nextId: nat, sizeT: SizeT)

  predicate Current(p: Pool, b: Buffer) {
    b.live && b.width == p.width && b.height == p.height
  }

  /** init_buffer for the current dimensions; `ok` is whether the system gave memory and
      the compositor a buffer. A mapping of no bytes fails (POSIX mmap). */
  function InitBuffer(p: Pool, ok: bool): Option<Buffer> {
    match BufferSize(p.width, p.height, p.sizeT)
    case None => None
    case Some(size) => if ok && size > 0 then Some(Buffer(true, p.nextId, size, p.width, p.height, false)) else None
  }

  /** next_buffer from slot `i` on: the new pool and the slot to paint, if any. */
  function NextFrom(p: Pool, i: nat, ok: seq<bool>): (r: (Pool, Option<nat>))
    requires i <= |p.bufs| == |ok|
    ensures |r.0.bufs| == |p.bufs|
    ensures r.1.Some? ==> r.1.value < |p.bufs|
    decreases |p.bufs| - i
  {
    if i == |p.bufs| then (p, None)
    else if Current(p, p.bufs[i]) then
      if p.bufs[i].busy then NextFrom(p, i + 1, ok) else (p, Some(i))
    else
      match InitBuffer(p, ok[i])
      case None => (p.(bufs := p.bufs[i := EMPTY]), None)
      case Some(b) => (p.(bufs := p.bufs[i := b], nextId := p.nextId + 1), Some(i))
  }

  function DestroyAll(p: Pool): Pool {
    p.(bufs := seq(|p.bufs|, _ => EMPTY))
  }

  // ----------------------------------------------------------------- the renderer

  /** `held` is history: the live buffers the compositor has been given and has not
      released. `committed` counts submitted frames. */
  datatype Renderer = Renderer(
    pool: Pool,
    running: bool,
    renderVisible: bool,
    chained: bool,
    frame: nat,
    committed: nat,
    held: set<nat>)

  datatype Event =
    | Start(ok: seq<bool>)
    | FrameDone(ok: seq<bool>)
    | Visibility(visible: bool, ok: seq<bool>)
    | Release(slot: nat)
    | Configure(width: int, height: int)
    | Close

  function Submit(r: Renderer, pool: Pool, slot: nat): Renderer
    requires slot < |pool.bufs|
  {
    var b := pool.bufs[slot];
    r.(pool := pool.(bufs := pool.bufs[slot := b.(busy := true)]),
       chained := true,
       committed := r.committed + 1,
       held := r.held + {b.id})
  }

  function Render(r: Renderer, ok: seq<bool>): Renderer
    requires |ok| == |r.pool.bufs|
  {
    if !r.running || !r.renderVisible then r
    else
      var (pool, slot) := NextFrom(r.pool, 0, ok);
      if slot.None? then r.(pool := pool) else Submit(r, pool, slot.value)
  }

  function FrameDoneStep(r: Renderer, ok: seq<bool>): Renderer
    requires |ok| == |r.pool.bufs|
  {
    var d := r.(chained := false);
    if !d.running || !d.renderVisible then d else Render(d.(frame := d.frame + 1), ok)
  }

  function VisibilityStep(r: Renderer, visible: bool, ok: seq<bool>): Renderer
    requires |ok| == |r.pool.bufs|
  {
    var v := r.(renderVisible := visible);
    if !visible then v.(chained := false)
    else if v.running && !v.chained then Render(v, ok)
    else v
  }

  function ReleaseStep(r: Renderer, slot: nat): Renderer
    requires slot < |r.pool.bufs|
  {
    var b := r.pool.bufs[slot];
    r.(pool := r.pool.(bufs := r.pool.bufs[slot := b.(busy := false)]), held := r.held - {b.id})
  }

  function ConfigureStep(r: Renderer, width: int, height: int): Renderer {
    if width > 0 && height > 0 && (width != r.pool.width || height != r.pool.height)
    then r.(pool := DestroyAll(r.pool).(width := width, height := height), held := {})
    else r
  }

  predicate Possible(r: Renderer, e: Event) {
    match e
    case Start(ok) => |ok| == |r.pool.bufs| && r.committed == 0 && !r.chained
    case FrameDone(ok) => |ok| == |r.pool.bufs| && r.chained
    case Visibility(visible, ok) => |ok| == |r.pool.bufs| && visible != r.renderVisible
    case Release(slot) => slot < |r.pool.bufs| && r.pool.bufs[slot].live && r.pool.bufs[slot].id in r.held
    case Configure(width, height) => InInt32(width) && InInt32(height)
    case Close => true
  }

  function Step(r: Renderer, e: Event): Renderer
    requires Possible(r, e)
  {
    match e
    case Start(ok) => Render(r, ok)
    case FrameDone(ok) => FrameDoneStep(r, ok)
    case Visibility(visible, ok) => VisibilityStep(r, visible, ok)
    case Release(slot) => ReleaseStep(r, slot)
    case Configure(width, height) => ConfigureStep(r, width, height)
    case Close => r.(running := false)
  }

  function Initial(sizeT: SizeT): Renderer {
    Renderer(Pool([EMPTY, EMPTY, EMPTY], 1920, 1080, 0, sizeT), true, true, false, 0, 0, {})
  }

  /** A run is the sequence of states it passes through. */
  ghost predicate IsRun(rs: seq<Renderer>, es: seq<Event>) {
    && |rs| == |es| + 1
    && rs[0] == Initial(rs[0].pool.sizeT)
    && forall k | 0 <= k < |es| :: Possible(rs[k], es[k]) && rs[k + 1] == Step(rs[k], es[k])
  }

  // ------------------------------------------------------------- the pool invariants

  /** The size for the current dimensions in the arithmetic of size_t, and when it is exact. */
  predicate SizeRight(p: Pool, size: nat) {
    && 0 < size <= INT32_MAX
    && size == 4 * p.width * p.height % p.sizeT.Values()
    && (size == 4 * p.width * p.height <==> 4 * p.width * p.height < p.sizeT.Values())
  }

  predicate PoolInv(p: Pool) {
    && |p.bufs| == NUM_BUFS
    && 0 < p.width <= INT32_MAX && 0 < p.height <= INT32_MAX
    && (forall i | 0 <= i < NUM_BUFS :: !p.bufs[i].live ==> p.bufs[i] == EMPTY)
    // live buffers form a prefix, of the current dimensions and the size for them
    && (forall i, j | 0 <= i < j < NUM_BUFS :: p.bufs[j].live ==> p.bufs[i].live)
    && (forall i | 0 <= i < NUM_BUFS && p.bufs[i].live ::
          && p.bufs[i].width == p.width && p.bufs[i].height == p.height
          && SizeRight(p, p.bufs[i].size)
          && p.bufs[i].id < p.nextId)
    && (forall i, j | 0 <= i < j < NUM_BUFS && p.bufs[i].live && p.bufs[j].live :: p.bufs[i].id != p.bufs[j].id)
  }

  /** A buffer is marked busy exactly while the compositor holds it. */
  predicate HeldMatchesBusy(p: Pool, held: set<nat>) {
    && (forall i | 0 <= i < |p.bufs| :: p.bufs[i].busy <==> p.bufs[i].live && p.bufs[i].id in held)
    && (forall id | id in held :: id < p.nextId)
  }

  predicate Sound(r: Renderer) {
    PoolInv(r.pool) && HeldMatchesBusy(r.pool, r.held) && (r.chained ==> r.renderVisible)
  }

  lemma NewBufferRight(p: Pool, ok: bool)
    requires InitBuffer(p, ok).Some?
    ensures var b := InitBuffer(p, ok).value;
      b == Buffer(true, p.nextId, b.size, p.width, p.height, false) && SizeRight(p, b.size)
  {
    SizeExactIff(p.width, p.height, p.sizeT);
  }

  /** Filling slot i, the ones before it being live, keeps the invariants. */
  lemma {:induction false} FilledKeepsInv(p: Pool, held: set<nat>, i: nat, size: nat)
    requires PoolInv(p) && HeldMatchesBusy(p, held) && i < NUM_BUFS && !p.bufs[i].live
    requires forall j | 0 <= j < i :: p.bufs[j].live
    requires SizeRight(p, size)
    ensures var b := Buffer(true, p.nextId, size, p.width, p.height, false);
      var q := p.(bufs := p.bufs[i := b], nextId := p.nextId + 1);
      PoolInv(q) && HeldMatchesBusy(q, held)
  {
    var b := Buffer(true, p.nextId, size, p.width, p.height, false);
    var q := p.(bufs := p.bufs[i := b], nextId := p.nextId + 1);
    assert forall n: nat :: SizeRight(q, n) == SizeRight(p, n);
    hide SizeRight;
  }

  /** The slot that is painted was not held by the compositor; every earlier slot is. */
  lemma {:induction false} NextIsSafe(p: Pool, held: set<nat>, i: nat, ok: seq<bool>)
    requires PoolInv(p) && HeldMatchesBusy(p, held) && i <= NUM_BUFS == |ok|
    requires forall j | 0 <= j < i :: p.bufs[j].live && p.bufs[j].busy
    ensures var (q, slot) := NextFrom(p, i, ok);
      && PoolInv(q) && HeldMatchesBusy(q, held)
      && q.width == p.width && q.height == p.height && q.nextId >= p.nextId && q.sizeT == p.sizeT
      && (slot.Some? ==>
            && i <= slot.value && q.bufs[slot.value].live && !q.bufs[slot.value].busy
            && q.bufs[slot.value].id !in held
            && forall j | 0 <= j < slot.value :: q.bufs[j] == p.bufs[j] && q.bufs[j].busy)
    decreases NUM_BUFS - i
  {
    hide SizeRight, InitBuffer;
    if i < NUM_BUFS {
      if p.bufs[i].live {
        if p.bufs[i].busy { NextIsSafe(p, held, i + 1, ok); }
      } else if InitBuffer(p, ok[i]).Some? {
        NewBufferRight(p, ok[i]);
        FilledKeepsInv(p, held, i, InitBuffer(p, ok[i]).value.size);
      } else {
        assert p.bufs[i := EMPTY] == p.bufs;
      }
    }
  }

  lemma {:induction false} RenderKeepsSound(r: Renderer, ok: seq<bool>)
    requires Sound(r) && |ok| == NUM_BUFS
    ensures Sound(Render(r, ok)) && Render(r, ok).pool.sizeT == r.pool.sizeT
  {
    NextIsSafe(r.pool, r.held, 0, ok);
  }

  lemma {:induction false} StepKeepsSound(r: Renderer, e: Event)
    requires Sound(r) && Possible(r, e)
    ensures Sound(Step(r, e)) && Step(r, e).pool.sizeT == r.pool.sizeT
  {
    match e
    case Start(ok) => RenderKeepsSound(r, ok);
    case FrameDone(ok) => RenderKeepsSound(r.(chained := false, frame := r.frame + 1), ok);
    case Visibility(visible, ok) => if visible { RenderKeepsSound(r.(renderVisible := true), ok); }
    case Release(slot) =>
    case Configure(width, height) =>
    case Close =>
  }

  /** In every reachable state the pool is consistent and no held buffer counts as free, and
      the width of size_t stays what it is. */
  lemma {:induction false} RunIsSound(rs: seq<Renderer>, es: seq<Event>)
    requires IsRun(rs, es)
    ensures forall k | 0 <= k < |rs| :: Sound(rs[k]) && rs[k].pool.sizeT == rs[0].pool.sizeT
  {
    if es != [] {
      var n := |es| - 1;
      hide Step, Sound;
      RunIsSound(rs[..n + 1], es[..n]);
      StepKeepsSound(rs[n], es[n]);
      assert forall k | 0 <= k <= n :: rs[..n + 1][k] == rs[k];
    }
  }

  /** The size clause spelled out: on a 64-bit machine every live buffer has the exact size;
      on the 32-bit target exactly while 4*w*h is below 2^32. */
  lemma {:induction false} RunSizesExactIff(rs: seq<Renderer>, es: seq<Event>, i: nat)
    requires IsRun(rs, es) && i < NUM_BUFS && |rs[|es|].pool.bufs| == NUM_BUFS && rs[|es|].pool.bufs[i].live
    ensures var p := rs[|es|].pool;
      p.bufs[i].size == 4 * p.width * p.height <==> p.sizeT.Bits64? || 4 * p.width * p.height < WORD
  {
    RunIsSound(rs, es);
    var p := rs[|es|].pool;
    hide BufferSize;
    if p.sizeT.Bits64? { FitsIn64(p.width, p.height); }
  }

  lemma FitsIn64(width: int, height: int)
    requires 0 < width <= INT32_MAX && 0 < height <= INT32_MAX
    ensures 4 * width * height < Bits64.Values()
  {
    ProductBound(4 * width, 4 * INT32_MAX, height, INT32_MAX);
  }

  /** The four bytes of every pixel of the picture are inside the mapping. */
  ghost predicate PictureFits(b: Buffer) {
    forall px: nat, py: nat | px < b.width && py < b.height ::
      4 * (RectPainter.Index(b.width, px, py) + 1) <= b.size
  }

  lemma {:induction false} PictureFitsIff(b: Buffer)
    requires b.width > 0 && b.height > 0
    ensures PictureFits(b) <==> 4 * b.width * b.height <= b.size
  {
    LastPixel(b.width, b.height);
    var n := b.width * b.height;
    assert 4 * b.width * b.height == 4 * n;
    assert RectPainter.Index(b.width, b.width - 1, b.height - 1) + 1 == n;
    if 4 * n <= b.size {
      forall px: nat, py: nat | px < b.width && py < b.height
        ensures 4 * (RectPainter.Index(b.width, px, py) + 1) <= b.size
      {
        RectPainter.IndexInside(b.width, b.height, px, py);
      }
    }
  }

  lemma LastPixel(width: int, height: int)
    requires width > 0 && height > 0
    ensures RectPainter.Index(width, width - 1, height - 1) + 1 == width * height
  {
    assert (height - 1) * width + width == height * width;
  }

  /** In every reachable state the buffer that is about to be painted holds its picture on a
      64-bit machine, and on the 32-bit target exactly while 4*w*h is below 2^32. */
  lemma {:induction false} RunPictureFitsIff(rs: seq<Renderer>, es: seq<Event>, ok: seq<bool>)
    requires IsRun(rs, es) && |ok| == NUM_BUFS
    ensures var r := rs[|es|];
      && |r.pool.bufs| == NUM_BUFS
      && var next := NextFrom(r.pool, 0, ok);
      next.1.Some? ==>
        var b := next.0.bufs[next.1.value];
        (b.width, b.height, PictureFits(b))
          == (r.pool.width, r.pool.height, r.pool.sizeT.Bits64? || 4 * r.pool.width * r.pool.height < WORD)
  {
    RunIsSound(rs, es);
    var p := rs[|es|].pool;
    NextIsSafe(p, rs[|es|].held, 0, ok);
    hide BufferSize, NextFrom, PictureFits;
    var (q, slot) := NextFrom(p, 0, ok);
    if slot.Some? {
      PictureFitsIff(q.bufs[slot.value]);
      if p.sizeT.Bits64? { FitsIn64(p.width, p.height); }
      NotBelowRemainder(4 * p.width * p.height, p.sizeT.Values());
    }
  }

  lemma NotBelowRemainder(n: int, m: nat)
    requires n >= 0 && m > 0
    ensures n % m <= n
    ensures n <= n % m <==> n < m
  {
  }

  /** On the 32-bit target one configure leads to a buffer whose mapping ends before its
      picture does; it is painted before it is marked or attached. */
  lemma WrongSizeIsReachable() returns (rs: seq<Renderer>, es: seq<Event>)
    ensures IsRun(rs, es) && rs[0].pool.sizeT == Bits32 && rs[|es|].running && rs[|es|].renderVisible
    ensures |rs[|es|].pool.bufs| == NUM_BUFS
    ensures NextFrom(rs[|es|].pool, 0, ALL_OK).1 == Some(0)
    ensures var b := NextFrom(rs[|es|].pool, 0, ALL_OK).0.bufs[0];
      && b.live && b.size == 262144 && b.width == 65536 && b.height == 16385
      && 4 * (RectPainter.Index(b.width, b.width - 1, b.height - 1) + 1) == WORD + 262144 > b.size
      && !PictureFits(b)
  {
    es := [Configure(65536, 16385)];
    SizeWrapsAt32();
    var r1 := Renderer(Pool([EMPTY, EMPTY, EMPTY], 65536, 16385, 0, Bits32), true, true, false, 0, 0, {});
    assert Step(Initial(Bits32), es[0]) == r1;
    rs := [Initial(Bits32), r1];
    PictureFitsIff(Buffer(true, 0, 262144, 65536, 16385, false));
  }

  // ------------------------------------------------------------ when the chain goes on

  /** Some slot can be painted: every slot before it is live and busy, and it is free or
      can be allocated. */
  predicate SlotReady(p: Pool, i: nat, ok: seq<bool>)
    requires i < |p.bufs| == |ok|
  {
    if p.bufs[i].live then !p.bufs[i].busy else InitBuffer(p, ok[i]).Some?
  }

  predicate BufferAvailable(p: Pool, ok: seq<bool>)
    requires |p.bufs| == |ok|
  {
    exists i | 0 <= i < |p.bufs| ::
      SlotReady(p, i, ok) && forall j | 0 <= j < i :: p.bufs[j].live && p.bufs[j].busy
  }

  lemma {:induction false} NextFoundIff(p: Pool, i: nat, ok: seq<bool>)
    requires PoolInv(p) && i <= NUM_BUFS == |ok|
    requires forall j | 0 <= j < i :: p.bufs[j].live && p.bufs[j].busy
    ensures NextFrom(p, i, ok).1.Some? <==> BufferAvailable(p, ok)
    decreases NUM_BUFS - i
  {
    if i < NUM_BUFS {
      if p.bufs[i].live && p.bufs[i].busy {
        NextFoundIff(p, i + 1, ok);
      } else {
        assert SlotReady(p, i, ok) <==> NextFrom(p, i, ok).1.Some?;
      }
    }
  }

  /** A frame event of a running, visible renderer keeps the chain alive exactly when a
      buffer is available. */
  lemma {:induction false} ChainContinuesIff(rs: seq<Renderer>, es: seq<Event>, ok: seq<bool>)
    requires IsRun(rs, es)
    requires var r := rs[|es|]; Possible(r, FrameDone(ok)) && r.running && r.renderVisible
    ensures Step(rs[|es|], FrameDone(ok)).chained <==> BufferAvailable(rs[|es|].pool, ok)
  {
    RunIsSound(rs, es);
    NextFoundIff(rs[|es|].pool, 0, ok);
  }

  // ----------------------------------------------------- what each event does to the pool

  /** A release frees its slot, which stays live, and takes its buffer from the compositor;
      nothing else changes. */
  lemma {:induction false} ReleaseFrees(r: Renderer, slot: nat)
    requires Possible(r, Release(slot))
    ensures var b := r.pool.bufs[slot]; var s := Step(r, Release(slot));
      && |s.pool.bufs| == |r.pool.bufs|
      && s.pool.bufs[slot] == Buffer(true, b.id, b.size, b.width, b.height, false)
      && (forall i | 0 <= i < |r.pool.bufs| && i != slot :: s.pool.bufs[i] == r.pool.bufs[i])
      && (forall id :: id in s.held <==> id in r.held && id != b.id)
      && s.(pool := r.pool, held := r.held) == r && s.pool.(bufs := r.pool.bufs) == r.pool
  {
  }

  /** A free slot can be painted, if no earlier one is taken first. */
  lemma {:induction false} FreeIsAvailable(p: Pool, i: nat, ok: seq<bool>)
    requires PoolInv(p) && i < NUM_BUFS == |ok| && p.bufs[i].live && !p.bufs[i].busy
    ensures BufferAvailable(p, ok)
  {
    hide SizeRight, InitBuffer;
    var k := if !p.bufs[0].busy then 0 else if !p.bufs[1].busy then 1 else 2;
    assert SlotReady(p, k, ok);
  }

  /** After every release that can happen a buffer is available, so the next frame event of a
      running, visible renderer keeps the chain alive, whatever can be allocated. */
  lemma {:induction false} ReleaseUnblocks(rs: seq<Renderer>, es: seq<Event>, slot: nat, ok: seq<bool>)
    requires IsRun(rs, es) && Possible(rs[|es|], Release(slot)) && |ok| == NUM_BUFS
    ensures var s := Step(rs[|es|], Release(slot));
      && |s.pool.bufs| == NUM_BUFS && BufferAvailable(s.pool, ok)
      && (s.running && s.renderVisible && s.chained ==> Step(s, FrameDone(ok)).chained)
  {
    hide Step, PoolInv, HeldMatchesBusy, BufferAvailable;
    var r := rs[|es|];
    var s := Step(r, Release(slot));
    RunIsSound(rs, es);
    StepKeepsSound(r, Release(slot));
    ReleaseFrees(r, slot);
    assert |s.pool.bufs| == NUM_BUFS by { PoolSize(s.pool); }
    FreeIsAvailable(s.pool, slot, ok);
    if s.running && s.renderVisible && s.chained {
      var rs1, es1 := rs + [s], es + [Release(slot)];
      assert rs1[|es1|] == s;
      ChainContinuesIff(rs1, es1, ok);
    }
  }

  /** Only positive dimensions that differ are taken over; then the pool is emptied and the
      compositor holds nothing. */
  lemma {:induction false} ConfigureEffect(r: Renderer, width: int, height: int)
    requires Possible(r, Configure(width, height))
    ensures var s := Step(r, Configure(width, height));
      if width > 0 && height > 0 && (width, height) != (r.pool.width, r.pool.height) then
        && (s.pool.width, s.pool.height, s.held, |s.pool.bufs|) == (width, height, {}, |r.pool.bufs|)
        && (forall i | 0 <= i < |s.pool.bufs| :: s.pool.bufs[i] == Buffer(false, 0, 0, 0, 0, false))
        && s.(pool := r.pool, held := r.held) == r
        && (s.pool.nextId, s.pool.sizeT) == (r.pool.nextId, r.pool.sizeT)
      else s == r
  {
  }

  /** Slot `i` has been submitted: it is of the current dimensions and the compositor, that did
      not hold its buffer, now does; no other slot has changed. */
  ghost predicate Submitted(p: Pool, held: set<nat>, s: Renderer, i: nat) {
    && i < |s.pool.bufs| == |p.bufs|
    && Current(s.pool, s.pool.bufs[i]) && s.pool.bufs[i].busy
    && s.pool.bufs[i].id !in held && s.held == held + {s.pool.bufs[i].id}
    && forall j | 0 <= j < |s.pool.bufs| && j != i :: s.pool.bufs[j] == p.bufs[j]
  }

  lemma {:induction false} NextChangesOne(p: Pool, i: nat, ok: seq<bool>)
    requires PoolInv(p) && i <= NUM_BUFS == |ok|
    ensures var (q, slot) := NextFrom(p, i, ok);
      if slot.None? then q == p else forall j | 0 <= j < NUM_BUFS && j != slot.value :: q.bufs[j] == p.bufs[j]
    decreases NUM_BUFS - i
  {
    hide SizeRight, InitBuffer;
    if i < NUM_BUFS {
      if p.bufs[i].live {
        NextChangesOne(p, i + 1, ok);
      } else {
        assert p.bufs[i := EMPTY] == p.bufs;
      }
    }
  }

  lemma {:induction false} RenderEffect(r: Renderer, ok: seq<bool>)
    requires Sound(r) && r.running && r.renderVisible && |ok| == NUM_BUFS
    ensures var s := Render(r, ok);
      if BufferAvailable(r.pool, ok)
      then (s.chained, s.committed) == (true, r.committed + 1) && exists i: nat :: Submitted(r.pool, r.held, s, i)
      else s == r
  {
    PoolSize(r.pool);
    hide InitBuffer, PoolInv, BufferAvailable;
    NextFoundIff(r.pool, 0, ok);
    NextIsSafe(r.pool, r.held, 0, ok);
    NextChangesOne(r.pool, 0, ok);
    hide NextFrom;
    var (q, slot) := NextFrom(r.pool, 0, ok);
    if slot.Some? {
      LiveIsCurrent(q, slot.value);
      assert Submitted(r.pool, r.held, Render(r, ok), slot.value);
    }
  }

  lemma LiveIsCurrent(p: Pool, i: nat)
    requires PoolInv(p) && i < NUM_BUFS && p.bufs[i].live
    ensures (p.bufs[i].width, p.bufs[i].height) == (p.width, p.height)
  {
  }

  /** In every reachable state the events that draw, for a renderer that runs and is or becomes
      visible, submit one slot and keep the chain alive exactly when a buffer is available;
      without one they leave pool and compositor as they are and the chain ends. A frame
      event counts the frame in both cases; without drawing it only ends the chain. */
  lemma {:induction false} DrawingEffect(rs: seq<Renderer>, es: seq<Event>, e: Event)
    requires IsRun(rs, es) && Possible(rs[|es|], e) && (e.Start? || e.FrameDone? || (e.Visibility? && e.visible))
    ensures var r, s := rs[|es|], Step(rs[|es|], e);
      var draws := r.running && (r.renderVisible || e.Visibility?);
      var submits := draws && |e.ok| == |r.pool.bufs| && BufferAvailable(r.pool, e.ok);
      && (s.running, s.renderVisible, s.chained, s.frame, s.committed)
        == (r.running, r.renderVisible || e.Visibility?, submits,
            r.frame + if e.FrameDone? && draws then 1 else 0, r.committed + if submits then 1 else 0)
      && if submits then exists i: nat :: Submitted(r.pool, r.held, s, i) else (s.pool, s.held) == (r.pool, r.held)
  {
    RunIsSound(rs, es);
    var r := rs[|es|];
    hide PoolInv, HeldMatchesBusy, BufferAvailable, Submitted;
    var ok := e.ok;
    assert |r.pool.bufs| == NUM_BUFS by { PoolSize(r.pool); }
    var v := r.(renderVisible := r.renderVisible || e.Visibility?, chained := false,
                frame := r.frame + if e.FrameDone? && r.running && r.renderVisible then 1 else 0);
    if v.running && v.renderVisible {
      hide Render;
      RenderEffect(v, ok);
      assert Step(r, e) == Render(v, ok);
    }
  }

  lemma PoolSize(p: Pool)
    requires PoolInv(p)
    ensures |p.bufs| == NUM_BUFS
  {
  }

  /** Hiding and closing end the chain at once or at its next frame, and touch no buffer. */
  lemma {:induction false} HideAndClose(r: Renderer, ok: seq<bool>)
    ensures Possible(r, Visibility(false, ok)) ==>
      Step(r, Visibility(false, ok)) == r.(renderVisible := false, chained := false)
    ensures Step(r, Close) == r.(running := false)
  {
  }

  /** The last configure of the run that counts. */
  ghost predicate LastSize(es: seq<Event>, i: nat) {
    && i < |es| && es[i].Configure? && es[i].width > 0 && es[i].height > 0
    && forall k | i < k < |es| :: !(es[k].Configure? && es[k].width > 0 && es[k].height > 0)
  }

  ghost predicate LastVisibility(es: seq<Event>, i: nat) {
    i < |es| && es[i].Visibility? && forall k | i < k < |es| :: !es[k].Visibility?
  }

  lemma {:induction false} Untouched(r: Renderer, e: Event)
    requires Possible(r, e)
    ensures var s := Step(r, e);
      && s.running == (r.running && !e.Close?)
      && s.renderVisible == (if e.Visibility? then e.visible else r.renderVisible)
      && (s.pool.width, s.pool.height) ==
           if e.Configure? && e.width > 0 && e.height > 0 then (e.width, e.height) else (r.pool.width, r.pool.height)
  {
    hide NextFrom;
    match e
    case Start(ok) => SameSize(r.pool, 0, ok);
    case FrameDone(ok) => SameSize(r.pool, 0, ok);
    case Visibility(_, ok) => SameSize(r.pool, 0, ok);
    case _ =>
  }

  lemma {:induction false} SameSize(p: Pool, i: nat, ok: seq<bool>)
    requires i <= |p.bufs| == |ok|
    ensures var q := NextFrom(p, i, ok).0; (q.width, q.height) == (p.width, p.height)
    decreases |p.bufs| - i
  {
    hide InitBuffer;
    if i < |p.bufs| && Current(p, p.bufs[i]) && p.bufs[i].busy { SameSize(p, i + 1, ok); }
  }

  /** Over every run: the renderer runs until a close, is visible unless it was last told that
      it is hidden, and has the dimensions of the last configure that gave positive ones. */
  lemma {:induction false} RunFollowsEvents(rs: seq<Renderer>, es: seq<Event>)
    requires IsRun(rs, es)
    ensures var r := rs[|es|];
      && (r.running <==> forall i | 0 <= i < |es| :: !es[i].Close?)
      && (r.renderVisible <==> forall i: nat | LastVisibility(es, i) :: es[i].visible)
      && (forall i: nat | LastSize(es, i) :: (r.pool.width, r.pool.height) == (es[i].width, es[i].height))
      && ((forall i: nat :: !LastSize(es, i)) ==> (r.pool.width, r.pool.height) == (1920, 1080))
  {
    if es != [] {
      hide Step, Possible;
      var n := |es| - 1;
      RunFollowsEvents(rs[..n + 1], es[..n]);
      Untouched(rs[n], es[n]);
      assert forall i | 0 <= i < n :: es[..n][i] == es[i];
      if es[n].Visibility? {
        assert LastVisibility(es, n);
      } else {
        assert forall i: nat :: LastVisibility(es, i) <==> LastVisibility(es[..n], i);
      }
      if es[n].Configure? && es[n].width > 0 && es[n].height > 0 {
        assert LastSize(es, n);
      } else {
        assert forall i: nat :: LastSize(es, i) <==> LastSize(es[..n], i);
      }
    }
  }

  predicate Stalled(r: Renderer) {
    r.running && r.renderVisible && !r.chained && r.committed > 0
  }

  /** A stalled chain stays stalled: releases and configures do not restart it, and only
      hiding the surface or closing ends the stall. */
  lemma {:induction false} StallPersists(r: Renderer, e: Event)
    requires Stalled(r) && Possible(r, e)
    ensures Step(r, e).committed == r.committed
    ensures Stalled(Step(r, e)) <==> e.Release? || e.Configure?
  {
  }

  /** The pool and the renderer after n frames of which none was released. */
  function Unreleased(n: nat): Renderer
    requires n <= NUM_BUFS
  {
    var size := 4 * 1920 * 1080;
    var b0 := Buffer(true, 0, size, 1920, 1080, true);
    var b1 := Buffer(true, 1, size, 1920, 1080, true);
    var b2 := Buffer(true, 2, size, 1920, 1080, true);
    if n == 0 then Initial(Bits32)
    else if n == 1 then
      Renderer(Pool([b0, EMPTY, EMPTY], 1920, 1080, 1, Bits32), true, true, true, 0, 1, {0})
    else if n == 2 then
      Renderer(Pool([b0, b1, EMPTY], 1920, 1080, 2, Bits32), true, true, true, 1, 2, {0, 1})
    else
      Renderer(Pool([b0, b1, b2], 1920, 1080, 3, Bits32), true, true, true, 2, 3, {0, 1, 2})
  }

  lemma NewAt1080(p: Pool)
    requires p.width == 1920 && p.height == 1080 && p.sizeT == Bits32
    ensures InitBuffer(p, true) == Some(Buffer(true, p.nextId, 4 * 1920 * 1080, 1920, 1080, false))
  {
  }

  lemma FirstFrame()
    ensures Step(Unreleased(0), Start(ALL_OK)) == Unreleased(1)
  {
    NewAt1080(Unreleased(0).pool);
    hide InitBuffer;
  }

  lemma SecondFrame()
    ensures Step(Unreleased(1), FrameDone(ALL_OK)) == Unreleased(2)
  {
    NewAt1080(Unreleased(1).pool);
    hide InitBuffer;
    assert NextFrom(Unreleased(1).pool, 0, ALL_OK) == NextFrom(Unreleased(1).pool, 1, ALL_OK);
  }

  lemma ThirdFrame()
    ensures Step(Unreleased(2), FrameDone(ALL_OK)) == Unreleased(3)
  {
    var p := Unreleased(2).pool;
    NewAt1080(p);
    hide InitBuffer;
    assert NextFrom(p, 0, ALL_OK) == NextFrom(p, 1, ALL_OK) == NextFrom(p, 2, ALL_OK);
  }

  lemma FourthFrame()
    ensures Step(Unreleased(3), FrameDone(ALL_OK)) == Unreleased(3).(chained := false, frame := 3)
  {
    var p := Unreleased(3).pool;
    hide InitBuffer;
    assert NextFrom(p, 0, ALL_OK) == NextFrom(p, 1, ALL_OK) == NextFrom(p, 2, ALL_OK) == NextFrom(p, 3, ALL_OK);
  }

  /** Three unreleased frames and one more frame event are enough to stall. */
  lemma StallIsReachable() returns (rs: seq<Renderer>, es: seq<Event>)
    ensures IsRun(rs, es) && Stalled(rs[|es|])
    ensures forall i | 0 <= i < |es| :: es[i].Start? || es[i].FrameDone?
  {
    hide Step;
    es := [Start(ALL_OK), FrameDone(ALL_OK), FrameDone(ALL_OK), FrameDone(ALL_OK)];
    FirstFrame();
    SecondFrame();
    ThirdFrame();
    FourthFrame();
    rs := [Unreleased(0), Unreleased(1), Unreleased(2), Unreleased(3), Unreleased(3).(chained := false, frame := 3)];
  }

  // --------------------------------------------------------------------- the program

  class CpuApp {
    const bufs: array<Buffer>
    const sizeT: SizeT
    var width: int
    var height: int
    var nextId: nat
    var running: bool
    var renderVisible: bool
    var frameCb: bool
    var frame: nat
    ghost var committed: nat
    ghost var held: set<nat>

    ghost function PoolView(): Pool
      reads this, bufs
    {
      Pool(bufs[..], width, height, nextId, sizeT)
    }

    ghost function View(): Renderer
      reads this, bufs
    {
      Renderer(PoolView(), running, renderVisible, frameCb, frame, committed, held)
    }

    constructor (sizeT: SizeT)
      ensures fresh(bufs) && bufs.Length == NUM_BUFS && View() == Initial(sizeT)
    {
      this.sizeT := sizeT;
      bufs := new Buffer[NUM_BUFS](_ => EMPTY);
      width, height, nextId := 1920, 1080, 0;
      running, renderVisible, frameCb, frame, committed, held := true, true, false, 0, 0, {};
      new;
      assert bufs[..] == [EMPTY, EMPTY, EMPTY];
    }

    method InitBufferAt(i: nat, ok: bool) returns (done: bool)
      requires i < bufs.Length
      modifies `nextId, bufs
      ensures var b := InitBuffer(old(PoolView()), ok);
        && done == b.Some?
        && bufs[..] == (if done then old(bufs[..])[i := b.value] else old(bufs[..]))
        && nextId == if done then old(nextId) + 1 else old(nextId)
    {
      if width <= 0 || height <= 0 || width > INT32_MAX / 4 { return false; }
      var stride := width * 4;
      var size := stride * height % sizeT.Values();
      if size > INT32_MAX { return false; }
      if !ok || size == 0 { return false; }
      bufs[i] := Buffer(true, nextId, size, width, height, false);
      nextId := nextId + 1;
      return true;
    }

    method NextBuffer(ok: seq<bool>) returns (slot: Option<nat>)
      requires |ok| == bufs.Length
      modifies `nextId, bufs
      ensures (PoolView(), slot) == NextFrom(old(PoolView()), 0, ok)
    {
      for i := 0 to bufs.Length
        invariant PoolView() == old(PoolView())
        invariant NextFrom(PoolView(), 0, ok) == NextFrom(PoolView(), i, ok)
      {
        var b := bufs[i];
        if !b.live || b.width != width || b.height != height {
          bufs[i] := EMPTY;
          var done := InitBufferAt(i, ok[i]);
          assert bufs[..] == old(bufs[..])[i := bufs[i]];
          if !done { return None; }
        }
        if !bufs[i].busy { return Some(i); }
      }
      return None;
    }

    method RenderFrame(ok: seq<bool>)
      requires |ok| == bufs.Length
      modifies this, bufs
      ensures View() == Render(old(View()), ok)
    {
      if !running || !renderVisible { return; }
      var slot := NextBuffer(ok);
      if slot.None? { return; }
      var b := bufs[slot.value];
      bufs[slot.value] := b.(busy := true);
      frameCb := true;
      committed, held := committed + 1, held + {b.id};
    }

    method FrameDoneEvent(ok: seq<bool>)
      requires Possible(View(), FrameDone(ok))
      modifies this, bufs
      ensures View() == Step(old(View()), FrameDone(ok))
    {
      frameCb := false;
      if !running || !renderVisible { return; }
      frame := frame + 1;
      RenderFrame(ok);
    }

    method WebosVisibilityChanged(visible: bool, ok: seq<bool>)
      requires Possible(View(), Visibility(visible, ok))
      modifies this, bufs
      ensures View() == Step(old(View()), Visibility(visible, ok))
    {
      renderVisible := visible;
      if !visible && frameCb {
        frameCb := false;
      } else if visible && running && !frameCb {
        RenderFrame(ok);
      }
    }

    method BufferRelease(slot: nat)
      requires Possible(View(), Release(slot))
      modifies this, bufs
      ensures View() == Step(old(View()), Release(slot))
    {
      held := held - {bufs[slot].id};
      bufs[slot] := bufs[slot].(busy := false);
    }

    method ShellConfigure(w: int, h: int)
      requires Possible(View(), Configure(w, h))
      modifies this, bufs
      ensures View() == Step(old(View()), Configure(w, h))
    {
      if w > 0 && h > 0 && (w != width || h != height) {
        width, height := w, h;
        DestroyBuffers();
        held := {};
      }
    }

    method DestroyBuffers()
      modifies bufs
      ensures PoolView() == DestroyAll(old(PoolView()))
    {
      for i := 0 to bufs.Length
        invariant forall j | 0 <= j < i :: bufs[j] == EMPTY
      {
        bufs[i] := EMPTY;
      }
    }
  }
}
