/** Ping-pong rendering between two textures and the program-switch schedule of the draw
    loop (native/wayland_egl_stress.c).

    A pass is a total function of the time uniform, the parity uniform and the image it
    samples. */
module Multipass {
  import opened Common

  type Shader<!Img> = (real, nat, Img) -> Img

  /** The contents of textures a and b, and which of the two is the source. */
  datatype Textures<Img> = Textures(a: Img, b: Img, sourceIsA: bool) {
    function Source(): Img { if sourceIsA then a else b }
  }

  // ---------------------------------------------------------------- specification

  /** Render into the target while sampling the source, then swap the two. */
  function Pass<Img>(shade: Shader<Img>, x: Textures<Img>, time: real, parity: nat): Textures<Img> {
    var image := shade(time, parity, x.Source());
    if x.sourceIsA then Textures(x.a, image, false) else Textures(image, x.b, true)
  }

  function PassesUpTo<Img>(shade: Shader<Img>, x: Textures<Img>, time: real, k: nat): Textures<Img> {
    if k == 0 then x else Pass(shade, PassesUpTo(shade, x, time, k - 1), time, (k - 1) % 2)
  }

  function Frames<Img>(shade: Shader<Img>, x: Textures<Img>, times: seq<real>, passes: nat): Textures<Img> {
    if times == [] then x
    else PassesUpTo(shade, Frames(shade, x, times[..|times| - 1], passes), times[|times| - 1], passes)
  }

  // ------------------------------------------------- what the chain of passes computes

  datatype Uniforms = Uniforms(time: real, parity: nat)

  /** The uniforms of every pass in order; the parity restarts with each frame. */
  function Schedule(times: seq<real>, passes: nat): seq<Uniforms> {
    if times == [] then []
    else Schedule(times[..|times| - 1], passes) + FrameSchedule(times[|times| - 1], passes)
  }

  lemma {:induction false} ScheduleLength(times: seq<real>, passes: nat)
    ensures |Schedule(times, passes)| == |times| * passes
  {
    if times != [] {
      ScheduleLength(times[..|times| - 1], passes);
      assert |times| * passes == (|times| - 1) * passes + passes;
    }
  }

  function FrameSchedule(time: real, passes: nat): (r: seq<Uniforms>)
    ensures |r| == passes
    ensures forall k | 0 <= k < passes :: r[k] == Uniforms(time, k % 2)
  {
    seq(passes, k requires 0 <= k => Uniforms(time, k % 2))
  }

  /** Apply the pass function once for each entry, with no textures at all. */
  function Fold<Img>(shade: Shader<Img>, us: seq<Uniforms>, image: Img): Img {
    if us == [] then image
    else
      var u := us[|us| - 1];
      shade(u.time, u.parity, Fold(shade, us[..|us| - 1], image))
  }

  lemma {:induction false} FoldConcat<Img>(shade: Shader<Img>, us: seq<Uniforms>, vs: seq<Uniforms>, image: Img)
    ensures Fold(shade, us + vs, image) == Fold(shade, vs, Fold(shade, us, image))
  {
    if vs == [] {
      assert us + vs == us;
    } else {
      FoldConcat(shade, us, vs[..|vs| - 1], image);
      assert (us + vs)[..|us + vs| - 1] == us + vs[..|vs| - 1];
    }
  }

  /** One frame reads, in each pass, exactly what the pass before it wrote. */
  lemma {:induction false} FrameIsFold<Img>(shade: Shader<Img>, x: Textures<Img>, time: real, passes: nat)
    ensures var y := PassesUpTo(shade, x, time, passes);
      (y.Source(), y.sourceIsA)
        == (Fold(shade, FrameSchedule(time, passes), x.Source()), x.sourceIsA == (passes % 2 == 0))
  {
    if passes > 0 {
      FrameIsFold(shade, x, time, passes - 1);
      assert FrameSchedule(time, passes)[..passes - 1] == FrameSchedule(time, passes - 1);
    }
  }

  lemma {:induction false} EvenSum(m: nat, n: nat)
    ensures ((m + n) % 2 == 0) == ((m % 2 == 0) == (n % 2 == 0))
  {
    assert m == 2 * (m / 2) + m % 2 && n == 2 * (n / 2) + n % 2;
  }

  lemma {:induction false} FramesStep<Img>(shade: Shader<Img>, x: Textures<Img>, times: seq<real>, passes: nat)
    requires times != []
    ensures var y := Frames(shade, x, times, passes);
      var z := Frames(shade, x, times[..|times| - 1], passes);
      (y.Source(), y.sourceIsA)
        == (Fold(shade, FrameSchedule(times[|times| - 1], passes), z.Source()), z.sourceIsA == (passes % 2 == 0))
  {
    FrameIsFold(shade, Frames(shade, x, times[..|times| - 1], passes), times[|times| - 1], passes);
  }

  /** Ping-pong rendering refines repeated application of the pass function across any
      number of frames, and the roles of the two textures follow the pass count alone. */
  lemma {:induction false} FramesAreFold<Img>(shade: Shader<Img>, clear: Img, times: seq<real>, passes: nat)
    ensures var y := Frames(shade, Textures(clear, clear, true), times, passes);
      (y.Source(), y.sourceIsA) == (Fold(shade, Schedule(times, passes), clear), |Schedule(times, passes)| % 2 == 0)
  {
    if times != [] {
      var before := times[..|times| - 1];
      FramesAreFold(shade, clear, before, passes);
      FramesStep(shade, Textures(clear, clear, true), times, passes);
      FoldConcat(shade, Schedule(before, passes), FrameSchedule(times[|times| - 1], passes), clear);
      EvenSum(|Schedule(before, passes)|, passes);
    }
  }

  // ------------------------------------------------------------------- the renderer

  /** The two texture objects and the ids that say which is sampled and which is drawn. */
  class PingPong<Img> {
    const contents: array<Img>
    var sourceTexture: nat
    var targetTexture: nat

    ghost predicate Valid()
      reads this
    {
      contents.Length == 2 && sourceTexture < 2 && targetTexture == 1 - sourceTexture
    }

    ghost function View(): Textures<Img>
      reads this, contents
      requires Valid()
    {
      Textures(contents[0], contents[1], sourceTexture == 0)
    }

    /** Both targets are cleared before the first frame. */
    constructor (clear: Img)
      ensures Valid() && fresh(contents) && View() == Textures(clear, clear, true)
    {
      contents := new Img[2](_ => clear);
      sourceTexture, targetTexture := 0, 1;
    }

    /** The pass loop of render for a multipass workload. */
    method RenderPasses(shade: Shader<Img>, time: real, passes: nat)
      requires Valid()
      modifies this, contents
      ensures Valid() && View() == PassesUpTo(shade, old(View()), time, passes)
    {
      var source: nat, target: nat := sourceTexture, targetTexture;
      for pass := 0 to passes
        invariant source < 2 && target == 1 - source
        invariant Textures(contents[0], contents[1], source == 0) == PassesUpTo(shade, old(View()), time, pass)
      {
        contents[target] := shade(time, pass % 2, contents[source]);
        source, target := target, source;
      }
      sourceTexture, targetTexture := source, target;
    }
  }

  // ------------------------------------------------------------- program switching

  /** Whether draw `d` of a pass uses the alternate program. */
  predicate UsesAlternate(d: nat, programSwitches: nat, haveAlternate: bool) {
    haveAlternate && Min(d, programSwitches) % 2 == 1
  }

  /** The glUseProgram calls of one pass that starts with the main program in use. */
  function PassSwitches(drawCount: nat, programSwitches: nat, haveAlternate: bool): nat {
    if haveAlternate && drawCount > 0 then Min(programSwitches, drawCount - 1) else 0
  }

  /** The draw loop of one pass. `alternate[d]` tells whether draw `d` used the alternate
      program; `useProgramCalls` counts glUseProgram inside the loop; `active` and `left` are
      the program in use before and after it, true for the alternate one. */
  method DrawLoop(drawCount: nat, programSwitches: nat, haveAlternate: bool, active: bool)
    returns (alternate: seq<bool>, useProgramCalls: nat, left: bool)
    ensures |alternate| == drawCount
    ensures forall d | 0 <= d < drawCount :: alternate[d] == UsesAlternate(d, programSwitches, haveAlternate)
    ensures useProgramCalls ==
      PassSwitches(drawCount, programSwitches, haveAlternate) + if active && drawCount > 0 then 1 else 0
    ensures left == if drawCount > 0 then alternate[drawCount - 1] else active
  {
    alternate, useProgramCalls, left := [], 0, active;
    for draw := 0 to drawCount
      invariant |alternate| == draw
      invariant forall d | 0 <= d < draw :: alternate[d] == UsesAlternate(d, programSwitches, haveAlternate)
      invariant left == if draw > 0 then alternate[draw - 1] else active
      invariant useProgramCalls ==
        PassSwitches(draw, programSwitches, haveAlternate) + if active && draw > 0 then 1 else 0
    {
      var wanted := false;
      if programSwitches > 0 && haveAlternate {
        if draw > 0 && draw <= programSwitches {
          wanted := draw % 2 == 1;
        } else if draw > programSwitches && programSwitches % 2 == 1 {
          wanted := true;
        }
      }
      if wanted != left {
        useProgramCalls := useProgramCalls + 1;
        left := wanted;
      }
      alternate := alternate + [left];
    }
  }

  /** The pass that follows another one first has to go back to the main program when its
      predecessor ended with the alternate one. */
  function FrameSwitches(passes: nat, drawCount: nat, programSwitches: nat, haveAlternate: bool): nat {
    var n := PassSwitches(drawCount, programSwitches, haveAlternate);
    if passes == 0 then 0 else passes * n + (passes - 1) * (n % 2)
  }

  /** All passes of a frame: the program in use is carried from pass to pass. */
  method DrawPasses(passes: nat, drawCount: nat, programSwitches: nat, haveAlternate: bool)
    returns (alternate: seq<seq<bool>>, useProgramCalls: nat)
    ensures |alternate| == passes
    ensures forall p | 0 <= p < passes :: |alternate[p]| == drawCount
    ensures forall p, d | 0 <= p < passes && 0 <= d < drawCount ::
      alternate[p][d] == UsesAlternate(d, programSwitches, haveAlternate)
    ensures useProgramCalls == FrameSwitches(passes, drawCount, programSwitches, haveAlternate)
  {
    alternate, useProgramCalls := [], 0;
    var active := false;
    var draws: seq<bool>, calls: nat := [], 0;
    ghost var n := PassSwitches(drawCount, programSwitches, haveAlternate);
    for pass := 0 to passes
      invariant |alternate| == pass
      invariant forall p | 0 <= p < pass :: |alternate[p]| == drawCount
      invariant forall p, d | 0 <= p < pass && 0 <= d < drawCount ::
        alternate[p][d] == UsesAlternate(d, programSwitches, haveAlternate)
      invariant active == (pass > 0 && drawCount > 0 && n % 2 == 1)
      invariant useProgramCalls == FrameSwitches(pass, drawCount, programSwitches, haveAlternate)
    {
      draws, calls, active := DrawLoop(drawCount, programSwitches, haveAlternate, active);
      FrameSwitchesStep(pass, drawCount, programSwitches, haveAlternate);
      useProgramCalls := useProgramCalls + calls;
      alternate := alternate + [draws];
    }
  }

  lemma FrameSwitchesStep(passes: nat, drawCount: nat, programSwitches: nat, haveAlternate: bool)
    ensures var n := PassSwitches(drawCount, programSwitches, haveAlternate);
      FrameSwitches(passes + 1, drawCount, programSwitches, haveAlternate)
      == FrameSwitches(passes, drawCount, programSwitches, haveAlternate) + n + if passes > 0 then n % 2 else 0
  {
    var n := PassSwitches(drawCount, programSwitches, haveAlternate);
    assert (passes + 1) * n == passes * n + n;
    assert passes > 0 ==> passes * (n % 2) == (passes - 1) * (n % 2) + n % 2;
  }

  /** A single pass switches min(switches, draws-1) times, and passes of one draw never
      switch: those are the shapes the workloads have. */
  lemma WorkloadSwitches(passes: nat, drawCount: nat, programSwitches: nat)
    ensures drawCount > 0 ==> FrameSwitches(1, drawCount, programSwitches, true) == Min(programSwitches, drawCount - 1)
    ensures FrameSwitches(passes, 1, programSwitches, true) == 0
  {
    assert PassSwitches(1, programSwitches, true) == 0;
    assert passes * 0 == 0;
  }
}
