/** EGL configuration selection of both GPU renderers (native/wayland_egl.c and
    native/wayland_egl_stress.c). */
module ConfigChooser {
  import opened Common

  datatype ColorMode = Auto | Rgb565 | Rgb888 | Rgba8888

  /** The attributes read from one config. surfaceOk and renderableOk are the tests of the
      surface-type and renderable-type bits. */
  datatype Config = Config(
    surfaceOk: bool, renderableOk: bool, slow: bool,
    red: nat, green: nat, blue: nat, alpha: nat, depth: nat, stencil: nat)

  const WORST_SCORE: int := -1000000
  const NO_CONFIG: int := -1

  predicate Eligible(c: Config, mode: ColorMode) {
    && c.surfaceOk && c.renderableOk && !c.slow
    && match mode
       case Rgb565 => c.red >= 5 && c.green >= 6 && c.blue >= 5 && c.alpha == 0
       case Rgb888 => c.red >= 8 && c.green >= 8 && c.blue >= 8 && c.alpha == 0
       case Rgba8888 => c.red >= 8 && c.green >= 8 && c.blue >= 8 && c.alpha >= 8
       case Auto => c.red >= 8 && c.green >= 8 && c.blue >= 8
  }

  function Score(c: Config, mode: ColorMode): int {
    (if mode.Auto? && c.alpha == 0 then 10000 else 0)
    + (if mode.Rgb565? && c.red == 5 && c.green == 6 && c.blue == 5 then 10000 else 0)
    - (c.alpha * 100 + c.depth * 10 + c.stencil * 10)
    - ((c.red - 8) + (c.green - 8) + (c.blue - 8))
  }

  predicate Candidate(c: Config, mode: ColorMode) {
    Eligible(c, mode) && Score(c, mode) > WORST_SCORE
  }

  /** The first eligible config of maximal score. A config is never chosen when its score
      does not exceed the initial one. */
  method ChooseConfig(configs: seq<Config>, mode: ColorMode) returns (best: int)
    ensures NO_CONFIG <= best < |configs|
    ensures best == NO_CONFIG <==> forall i | 0 <= i < |configs| :: !Candidate(configs[i], mode)
    ensures best >= 0 ==>
      && Candidate(configs[best], mode)
      && (forall i | 0 <= i < |configs| && Eligible(configs[i], mode) ::
            Score(configs[i], mode) <= Score(configs[best], mode))
      && (forall i | 0 <= i < best && Eligible(configs[i], mode) ::
            Score(configs[i], mode) < Score(configs[best], mode))
  {
    var bestScore := WORST_SCORE;
    best := NO_CONFIG;
    for i := 0 to |configs|
      invariant NO_CONFIG <= best < i
      invariant best == NO_CONFIG ==> bestScore == WORST_SCORE
      invariant best >= 0 ==> Candidate(configs[best], mode) && bestScore == Score(configs[best], mode)
      invariant forall j | 0 <= j < i && Eligible(configs[j], mode) :: Score(configs[j], mode) <= bestScore
      invariant forall j | 0 <= j < best && Eligible(configs[j], mode) :: Score(configs[j], mode) < bestScore
    {
      if !Eligible(configs[i], mode) { continue; }
      var score := Score(configs[i], mode);
      if score > bestScore {
        bestScore := score;
        best := i;
      }
    }
  }

  // ------------------------------------------- the score as an order of preference

  function Buffers(c: Config): nat { c.depth + c.stencil }

  function Colour(c: Config): nat { c.red + c.green + c.blue }

  /** Attribute values the preference is meant for: depth and stencil in whole bytes up to
      64 bits, colour less than 80 bits above RGB888. */
  predicate Usual(c: Config) {
    c.depth % 8 == 0 && c.stencil % 8 == 0 && c.depth <= 64 && c.stencil <= 64 && Colour(c) < 24 + 80
  }

  /** The order the score is built for: alpha-free first, then fewer depth and stencil bits,
      then the smaller colour buffer. */
  predicate Preferred(c: Config, d: Config) {
    if (c.alpha == 0) != (d.alpha == 0) then c.alpha == 0
    else if Buffers(c) != Buffers(d) then Buffers(c) < Buffers(d)
    else Colour(c) < Colour(d)
  }

  lemma WholeBytesApart(c: Config, d: Config)
    requires Usual(c) && Usual(d)
    ensures Buffers(c) == Buffers(d) || Buffers(c) + 8 <= Buffers(d) || Buffers(d) + 8 <= Buffers(c)
    ensures Buffers(c) <= 128 && Buffers(d) <= 128
  {
  }

  lemma AutoScore(c: Config)
    ensures Score(c, Auto) == (if c.alpha == 0 then 10000 else -100 * c.alpha) - 10 * Buffers(c) - (Colour(c) - 24)
  {
  }

  /** How far alpha and depth and stencil set two configs apart in score. */
  function Lead(alpha: nat, beta: nat, m: nat, n: nat): int {
    10 * (10 * (beta - alpha) + (n - m))
  }

  /** In automatic mode the score orders configs that way, unless their alphas are non-zero and
      different: then the penalties of alpha, buffers and colour are weighed together. */
  lemma {:induction false} ScoreIsPreference(c: Config, d: Config)
    requires Eligible(c, Auto) && Eligible(d, Auto) && Usual(c) && Usual(d)
    ensures c.alpha == d.alpha || c.alpha == 0 || d.alpha == 0 ==>
      (Score(c, Auto) > Score(d, Auto) <==> Preferred(c, d))
    ensures (c.alpha == 0) == (d.alpha == 0) ==>
      Score(c, Auto) - Score(d, Auto) == Lead(c.alpha, d.alpha, Buffers(c), Buffers(d)) + Colour(d) - Colour(c)
  {
    assert 24 <= Colour(c) < 104 && 24 <= Colour(d) < 104;
    hide Usual, Eligible, Score, Buffers, Colour;
    WholeBytesApart(c, d);
    AutoScore(c);
    AutoScore(d);
  }

  /** With two different non-zero alpha sizes the order can be the opposite one. */
  lemma AlphaPenaltyOverridesBuffers()
    ensures var c := Config(true, true, false, 8, 8, 8, 8, 0, 0);
      var d := Config(true, true, false, 8, 8, 8, 1, 24, 0);
      && Eligible(c, Auto) && Eligible(d, Auto) && Usual(c) && Usual(d)
      && Preferred(c, d) && Score(c, Auto) < Score(d, Auto)
  {
  }

  /** The score orders the configs of two alpha sizes that way. */
  ghost predicate FollowsPreference(alpha: nat, beta: nat) {
    forall c, d | Eligible(c, Auto) && Eligible(d, Auto) && Usual(c) && Usual(d)
                  && c.alpha == alpha && d.alpha == beta ::
      Score(c, Auto) > Score(d, Auto) <==> Preferred(c, d)
  }

  /** That holds exactly when the alpha sizes are equal or one of them is zero. */
  lemma {:induction false} FollowsPreferenceIff(alpha: nat, beta: nat)
    ensures FollowsPreference(alpha, beta) <==> alpha == beta || alpha == 0 || beta == 0
  {
    if alpha == beta || alpha == 0 || beta == 0 {
      forall c, d | Eligible(c, Auto) && Eligible(d, Auto) && Usual(c) && Usual(d)
                    && c.alpha == alpha && d.alpha == beta
        ensures Score(c, Auto) > Score(d, Auto) <==> Preferred(c, d)
      {
        ScoreIsPreference(c, d);
      }
    } else {
      var c := Config(true, true, false, 8, 8, 8, alpha, if alpha < beta then 8 else 0, 0);
      var d := Config(true, true, false, 8, 8, 8, beta, if alpha < beta then 0 else 8, 0);
      assert Eligible(c, Auto) && Eligible(d, Auto) && Usual(c) && Usual(d);
      assert Preferred(c, d) <==> alpha > beta;
      assert Score(c, Auto) > Score(d, Auto) <==> alpha < beta;
    }
  }

  /** So whenever an alpha-free config is on offer, the chosen one is alpha-free and no
      other alpha-free config is preferred to it. */
  lemma {:induction false} ChoiceIsPreferred(configs: seq<Config>, best: nat, i: nat)
    requires best < |configs| && i < |configs|
    requires forall j | 0 <= j < |configs| && Eligible(configs[j], Auto) :: Usual(configs[j])
    requires Eligible(configs[best], Auto)
    requires forall j | 0 <= j < |configs| && Eligible(configs[j], Auto) ::
               Score(configs[j], Auto) <= Score(configs[best], Auto)
    requires Eligible(configs[i], Auto) && configs[i].alpha == 0
    ensures configs[best].alpha == 0
    ensures forall j | 0 <= j < |configs| && Eligible(configs[j], Auto) :: !Preferred(configs[j], configs[best])
  {
    ScoreIsPreference(configs[i], configs[best]);
    forall j | 0 <= j < |configs| && Eligible(configs[j], Auto)
      ensures !Preferred(configs[j], configs[best])
    {
      ScoreIsPreference(configs[j], configs[best]);
    }
  }

  // ---------------------------------------------------------- the documented order

  /** docs/ARCHITECTURE.md: zero alpha, then zero depth and stencil, then the smallest colour
      buffer. */
  predicate Documented(c: Config, d: Config) {
    if (c.alpha == 0) != (d.alpha == 0) then c.alpha == 0
    else if (Buffers(c) == 0) != (Buffers(d) == 0) then Buffers(c) == 0
    else Colour(c) < Colour(d)
  }

  /** The sums of depth and stencil that occur among usual configs. */
  predicate IsSum(m: nat) { m % 8 == 0 && m <= 128 }

  ghost predicate Shaped(c: Config, alpha: nat, m: nat) {
    Eligible(c, Auto) && Usual(c) && c.alpha == alpha && Buffers(c) == m
  }

  /** The score orders all configs of two alphas and two depth and stencil sums as
      documented. */
  ghost predicate FollowsDocumented(alpha: nat, beta: nat, m: nat, n: nat) {
    forall c, d | Shaped(c, alpha, m) && Shaped(d, beta, n) ::
      Score(c, Auto) > Score(d, Auto) <==> Documented(c, d)
  }

  /** The documented criterion decides before the weights can be outdone by colour. */
  predicate Separated(alpha: nat, beta: nat, m: nat, n: nat) {
    var k := Lead(alpha, beta, m, n);
    if (alpha == 0) != (beta == 0) then true
    else if (m == 0) != (n == 0) then if m == 0 then k >= 80 else k <= -79
    else k == 0
  }

  /** A config of that shape with `extra` colour bits. */
  function Sample(alpha: nat, m: nat, extra: nat): (c: Config)
    requires IsSum(m) && extra < 80
    ensures Eligible(c, Auto) && Usual(c) && c.alpha == alpha && Buffers(c) == m && Colour(c) == 24 + extra
  {
    Config(true, true, false, 8, 8, 8 + extra, alpha, Min(m, 64), m - Min(m, 64))
  }

  lemma {:induction false} SeparatedFollows(c: Config, d: Config)
    requires Eligible(c, Auto) && Eligible(d, Auto) && Usual(c) && Usual(d)
    requires Separated(c.alpha, d.alpha, Buffers(c), Buffers(d))
    ensures Score(c, Auto) > Score(d, Auto) <==> Documented(c, d)
  {
    assert 24 <= Colour(c) < 104 && 24 <= Colour(d) < 104;
    hide Usual, Eligible, Score, Buffers, Colour;
    ScoreIsPreference(c, d);
  }

  /** What the order does on two sample configs. */
  lemma {:induction false} OnSamples(alpha: nat, beta: nat, m: nat, n: nat, x: nat, y: nat)
    requires IsSum(m) && IsSum(n) && x < 80 && y < 80 && (alpha == 0) == (beta == 0)
    requires FollowsDocumented(alpha, beta, m, n)
    ensures Lead(alpha, beta, m, n) + y - x > 0
      <==> if (m == 0) != (n == 0) then m == 0 else x < y
  {
    var c, d := Sample(alpha, m, x), Sample(beta, n, y);
    ScoreIsPreference(c, d);
    assert Shaped(c, alpha, m) && Shaped(d, beta, n);
    hide Usual, Eligible, Score, Buffers, Colour;
  }

  /** Exactly when it does so, for all alphas and sums: a lead in favour of the documented
      criterion that 79 colour bits cannot outdo, or none at all where colour is to decide. */
  lemma {:induction false} FollowsDocumentedIff(alpha: nat, beta: nat, m: nat, n: nat)
    requires IsSum(m) && IsSum(n)
    ensures FollowsDocumented(alpha, beta, m, n) <==> Separated(alpha, beta, m, n)
  {
    if Separated(alpha, beta, m, n) {
      forall c, d | Shaped(c, alpha, m) && Shaped(d, beta, n)
        ensures Score(c, Auto) > Score(d, Auto) <==> Documented(c, d)
      {
        SeparatedFollows(c, d);
      }
    }
    if FollowsDocumented(alpha, beta, m, n) && (alpha == 0) == (beta == 0) {
      hide FollowsDocumented;
      OnSamples(alpha, beta, m, n, 79, 0);
      OnSamples(alpha, beta, m, n, 0, 79);
      OnSamples(alpha, beta, m, n, 0, 0);
      OnSamples(alpha, beta, m, n, 0, 1);
    }
  }

  /** So the score can contradict the documentation: among configs that have depth bits it
      weighs their number before colour. */
  lemma ScoreContradictsDocumented()
    ensures var c := Config(true, true, false, 8, 8, 8, 0, 16, 0);
      var d := Config(true, true, false, 9, 8, 8, 0, 8, 0);
      && Eligible(c, Auto) && Eligible(d, Auto) && Usual(c) && Usual(d)
      && Documented(c, d) && Score(c, Auto) < Score(d, Auto)
  {
  }

  /** The choice among an offer of two: the first unless the second scores more. */
  function ChoiceOfTwo(c: Config, d: Config): Config {
    if Score(d, Auto) > Score(c, Auto) then d else c
  }

  /** Neither order of offering makes the choice one that the other is documented to beat. */
  predicate ChoosesWell(c: Config, d: Config) {
    && (Documented(c, d) ==> ChoiceOfTwo(c, d) == ChoiceOfTwo(d, c) == c)
    && (Documented(d, c) ==> ChoiceOfTwo(c, d) == ChoiceOfTwo(d, c) == d)
  }

  ghost predicate AlwaysChoosesWell(alpha: nat, beta: nat, m: nat, n: nat) {
    forall c, d | Shaped(c, alpha, m) && Shaped(d, beta, n) :: ChoosesWell(c, d)
  }

  lemma InTens(alpha: nat, beta: nat, m: nat, n: nat)
    ensures Lead(alpha, beta, m, n) != -79
  {
  }

  lemma {:induction false} SeparatedChoosesWell(c: Config, d: Config)
    requires Eligible(c, Auto) && Eligible(d, Auto) && Usual(c) && Usual(d)
    requires Separated(c.alpha, d.alpha, Buffers(c), Buffers(d))
    ensures ChoosesWell(c, d)
  {
    assert 24 <= Colour(c) < 104 && 24 <= Colour(d) < 104;
    hide Usual, Eligible, Score, Buffers, Colour;
    InTens(c.alpha, d.alpha, Buffers(c), Buffers(d));
    hide Lead;
    SeparatedFollows(c, d);
    ScoreIsPreference(c, d);
    ScoreIsPreference(d, c);
  }

  lemma {:induction false} WellOnSamples(alpha: nat, beta: nat, m: nat, n: nat, x: nat, y: nat)
    requires IsSum(m) && IsSum(n) && x < 80 && y < 80 && (alpha == 0) == (beta == 0)
    requires AlwaysChoosesWell(alpha, beta, m, n)
    ensures var k := Lead(alpha, beta, m, n) + y - x;
      && ((if (m == 0) != (n == 0) then m == 0 else x < y) ==> k > 0)
      && ((if (m == 0) != (n == 0) then n == 0 else y < x) ==> k < 0)
  {
    var c, d := Sample(alpha, m, x), Sample(beta, n, y);
    ScoreIsPreference(c, d);
    assert Shaped(c, alpha, m) && Shaped(d, beta, n);
    assert ChoosesWell(c, d);
    hide Usual, Eligible, Score, Buffers, Colour;
  }

  /** The condition is exact for the choice as well, whichever is offered first. */
  lemma {:induction false} ChoosesWellIff(alpha: nat, beta: nat, m: nat, n: nat)
    requires IsSum(m) && IsSum(n)
    ensures AlwaysChoosesWell(alpha, beta, m, n) <==> Separated(alpha, beta, m, n)
  {
    if Separated(alpha, beta, m, n) {
      forall c, d | Shaped(c, alpha, m) && Shaped(d, beta, n) ensures ChoosesWell(c, d) {
        SeparatedChoosesWell(c, d);
      }
    }
    if AlwaysChoosesWell(alpha, beta, m, n) && (alpha == 0) == (beta == 0) {
      hide AlwaysChoosesWell, Lead;
      InTens(alpha, beta, m, n);
      WellOnSamples(alpha, beta, m, n, 79, 0);
      WellOnSamples(alpha, beta, m, n, 0, 79);
      WellOnSamples(alpha, beta, m, n, 1, 0);
      WellOnSamples(alpha, beta, m, n, 0, 1);
    }
  }

  /** For offers of any length: a choice of maximal score that is separated from every other
      eligible config is beaten by none of them in the documented order. */
  lemma {:induction false} ChoiceFollowsDocumented(configs: seq<Config>, best: nat)
    requires best < |configs| && Eligible(configs[best], Auto)
    requires forall j | 0 <= j < |configs| && Eligible(configs[j], Auto) ::
      && Usual(configs[j])
      && Score(configs[j], Auto) <= Score(configs[best], Auto)
      && Separated(configs[j].alpha, configs[best].alpha, Buffers(configs[j]), Buffers(configs[best]))
    ensures forall j | 0 <= j < |configs| && Eligible(configs[j], Auto) :: !Documented(configs[j], configs[best])
  {
    hide Usual, Score, Documented, Separated;
    forall j | 0 <= j < |configs| && Eligible(configs[j], Auto) ensures !Documented(configs[j], configs[best]) {
      SeparatedFollows(configs[j], configs[best]);
    }
  }

  /** Whenever a config without alpha, depth and stencil is on offer, the chosen one meets the
      documentation: it has none of them either, and no smaller colour buffer was to be had. */
  lemma {:induction false} ChoiceIsDocumented(configs: seq<Config>, best: nat, i: nat)
    requires best < |configs| && i < |configs|
    requires forall j | 0 <= j < |configs| && Eligible(configs[j], Auto) :: Usual(configs[j])
    requires Eligible(configs[best], Auto)
    requires forall j | 0 <= j < |configs| && Eligible(configs[j], Auto) ::
               Score(configs[j], Auto) <= Score(configs[best], Auto)
    requires Eligible(configs[i], Auto) && configs[i].alpha == 0 && Buffers(configs[i]) == 0
    ensures configs[best].alpha == 0 && Buffers(configs[best]) == 0
    ensures forall j | 0 <= j < |configs| && Eligible(configs[j], Auto) :: !Documented(configs[j], configs[best])
  {
    hide Eligible, Usual, Score;
    ChoiceIsPreferred(configs, best, i);
    assert !Preferred(configs[i], configs[best]);
    forall j | 0 <= j < |configs| && Eligible(configs[j], Auto) ensures !Documented(configs[j], configs[best]) {
      assert !Preferred(configs[j], configs[best]);
    }
  }

  // ---------------------------------------------------------------- the other modes

  /** The least sizes of red, green and blue in a mode. */
  function LeastSizes(mode: ColorMode): (nat, nat, nat) {
    if mode.Rgb565? then (5, 6, 5) else (8, 8, 8)
  }

  /** What the mode makes of alpha: none in the modes without it, a byte in the one with it. */
  predicate AlphaAllowed(mode: ColorMode, alpha: nat) {
    if mode.Auto? then true else if mode.Rgba8888? then alpha >= 8 else alpha == 0
  }

  /** Whatever is chosen can be drawn to and is not slow, has at least the colour sizes of the
      mode, and the alpha that it allows; and everything of that kind takes part. */
  lemma {:induction false} EligibleIff(c: Config, mode: ColorMode)
    ensures Eligible(c, mode) <==>
      && (c.surfaceOk, c.renderableOk, c.slow) == (true, true, false)
      && c.red >= LeastSizes(mode).0 && c.green >= LeastSizes(mode).1 && c.blue >= LeastSizes(mode).2
      && AlphaAllowed(mode, c.alpha)
  {
  }

  predicate Exact565(c: Config) { (c.red, c.green, c.blue) == (5, 6, 5) }

  /** The order of the 565 mode: RGB565 itself first, then fewer depth and stencil bits, then
      the smaller colour buffer. */
  predicate Preferred565(c: Config, d: Config) {
    if Exact565(c) != Exact565(d) then Exact565(c)
    else if Buffers(c) != Buffers(d) then Buffers(c) < Buffers(d)
    else Colour(c) < Colour(d)
  }

  lemma Score565(c: Config)
    requires Eligible(c, Rgb565)
    ensures Score(c, Rgb565) == (if Exact565(c) then 10000 else 0) - 10 * Buffers(c) - (Colour(c) - 24)
    ensures if Exact565(c) then Colour(c) == 16 else Colour(c) > 16
  {
  }

  /** The score of the 565 mode orders all configs of fewer colour bits than the limit so. */
  ghost predicate Follows565(limit: nat) {
    forall c, d | Eligible(c, Rgb565) && Eligible(d, Rgb565) && Usual(c) && Usual(d)
                  && Colour(c) < limit && Colour(d) < limit ::
      Score(c, Rgb565) > Score(d, Rgb565) <==> Preferred565(c, d)
  }

  lemma {:induction false} ScoreIs565Preference(c: Config, d: Config)
    requires Eligible(c, Rgb565) && Eligible(d, Rgb565) && Usual(c) && Usual(d) && Colour(c) < 97 && Colour(d) < 97
    ensures Score(c, Rgb565) > Score(d, Rgb565) <==> Preferred565(c, d)
  {
    hide Eligible, Score, Buffers, Colour, Exact565;
    WholeBytesApart(c, d);
    Score565(c);
    Score565(d);
  }

  /** That holds exactly up to a limit of 97: then 80 colour bits outweigh a byte of depth. */
  lemma {:induction false} Follows565Iff(limit: nat)
    ensures Follows565(limit) <==> limit <= 97
  {
    if limit <= 97 {
      forall c, d | Eligible(c, Rgb565) && Eligible(d, Rgb565) && Usual(c) && Usual(d)
                    && Colour(c) < limit && Colour(d) < limit
        ensures Score(c, Rgb565) > Score(d, Rgb565) <==> Preferred565(c, d)
      {
        ScoreIs565Preference(c, d);
      }
    } else {
      var c := Config(true, true, false, 32, 32, 33, 0, 0, 0);
      var d := Config(true, true, false, 5, 6, 6, 0, 8, 0);
      assert Eligible(c, Rgb565) && Eligible(d, Rgb565) && Usual(c) && Usual(d);
      assert Preferred565(c, d) && Score(c, Rgb565) == Score(d, Rgb565);
    }
  }

  /** Whenever RGB565 itself is on offer it is chosen, with the least depth and stencil. */
  lemma {:induction false} Exact565IsChosen(configs: seq<Config>, best: nat, i: nat)
    requires best < |configs| && i < |configs|
    requires forall j | 0 <= j < |configs| && Eligible(configs[j], Rgb565) :: Usual(configs[j])
    requires Eligible(configs[best], Rgb565)
    requires forall j | 0 <= j < |configs| && Eligible(configs[j], Rgb565) ::
               Score(configs[j], Rgb565) <= Score(configs[best], Rgb565)
    requires Eligible(configs[i], Rgb565) && Exact565(configs[i])
    ensures Exact565(configs[best])
    ensures forall j | 0 <= j < |configs| && Eligible(configs[j], Rgb565) && Exact565(configs[j]) ::
      Buffers(configs[best]) <= Buffers(configs[j])
  {
    var b := configs[best];
    Score565(b);
    Score565(configs[i]);
    WholeBytesApart(configs[i], b);
    forall j | 0 <= j < |configs| && Eligible(configs[j], Rgb565) && Exact565(configs[j])
      ensures Buffers(b) <= Buffers(configs[j])
    {
      Score565(configs[j]);
    }
  }

  /** In the two other modes the score weighs alpha, buffers and colour together, which for equal
      alphas is the order of preference. */
  lemma {:induction false} ScoreInFixedModes(c: Config, d: Config, mode: ColorMode)
    requires (mode.Rgb888? || mode.Rgba8888?) && Eligible(c, mode) && Eligible(d, mode) && Usual(c) && Usual(d)
    ensures Score(c, mode) - Score(d, mode) == Lead(c.alpha, d.alpha, Buffers(c), Buffers(d)) + Colour(d) - Colour(c)
    ensures c.alpha == d.alpha ==> (Score(c, mode) > Score(d, mode) <==> Preferred(c, d))
  {
    assert 24 <= Colour(c) < 104 && 24 <= Colour(d) < 104;
    FixedScore(c, mode);
    FixedScore(d, mode);
    hide Usual, Eligible, Score, Buffers, Colour;
    WholeBytesApart(c, d);
  }

  lemma FixedScore(c: Config, mode: ColorMode)
    requires mode.Rgb888? || mode.Rgba8888?
    ensures Score(c, mode) == -100 * c.alpha - 10 * Buffers(c) - (Colour(c) - 24)
  {
  }
}
