/** One pass of the random-walk twinkle (`twinkle_effect_2`): lit pixels
    dim or wander inside [0, 0.1], dark pixels may switch on while a running
    count of lit pixels is below the cap. The random numbers each pixel
    consumes are explicit inputs. */
module RandomWalk {
  import opened Colors
  import opened Addressing
  import opened Pixels

  const DimChance: real := 0.05
  const DimStep: real := 0.01
  const MaxBrightness: real := 0.1
  const ActivateChance: real := 0.01
  const StartBrightness: real := 0.01

  /** The random numbers one pixel may consume in one pass: the
      uniform roll in [0, 1), the uniform nudge in [-0.005, 0.005] and the
      hue in 0..255 of a new colour. Unused fields are
      ignored. */
  datatype Draw = Draw(roll: real, delta: real, hue: int)

  /** The ranges the random module guarantees. */
  predicate DrawOk(d: Draw) {
    0.0 <= d.roll < 1.0 && -0.005 <= d.delta <= 0.005 && 0 <= d.hue <= 255
  }

  predicate Bounded(p: Pixel) {
    0.0 <= p.brightness <= MaxBrightness
  }

  predicate AllBounded(ps: seq<Pixel>) {
    forall i :: 0 <= i < |ps| ==> Bounded(ps[i])
  }

  function Min(a: real, b: real): real {
    if a <= b then a else b
  }

  function Max(a: real, b: real): real {
    if a >= b then a else b
  }

  function Abs(x: real): real {
    if x < 0.0 then -x else x
  }

  /** A pixel switched on in this pass: brightness 0.01 and a wheel colour. */
  function Activated(d: Draw): (p: Pixel)
    ensures Lit(p) == 1 && Bounded(p)
    ensures 0 <= d.hue <= 255 ==> Valid(p.color) && p.color.r + p.color.g + p.color.b == 255
  {
    Pixel(StartBrightness, Wheel(d.hue))
  }

  /** A pixel's new state and the running lit counter after it. */
  datatype Step = Step(pixel: Pixel, lit: int)

  /** The body of the `for i in range(288)` loop for one pixel. */
  function StepPixel(p: Pixel, d: Draw, lit: int, maxLit: int): (r: Step)
    ensures Bounded(p) ==> Bounded(r.pixel)
    // the counter may over-count, but never falls behind the true count
    ensures lit - Lit(p) <= r.lit - Lit(r.pixel)
    // it only grows by one activation, and only below the cap
    ensures r.lit <= lit || (lit < maxLit && r.lit == lit + 1)
    // a lit pixel keeps its colour; a dark one keeps its state unless it activates
    ensures p.brightness > 0.0 ==> r.pixel.color == p.color
    ensures p.brightness <= 0.0 ==>
              (r == Step(p, lit)) ||
              (lit < maxLit && d.roll < ActivateChance && r == Step(Activated(d), lit + 1))
    // the gate is exact: open, a dark pixel activates; closed, it stays as it is
    ensures p.brightness <= 0.0 && lit < maxLit && d.roll < ActivateChance ==>
              r == Step(Activated(d), lit + 1)
    ensures p.brightness <= 0.0 && !(lit < maxLit && d.roll < ActivateChance) ==> r == Step(p, lit)
    // the dimming roll: at most one step darker, floored at 0, and the
    // counter drops exactly when the pixel goes dark
    ensures p.brightness > 0.0 && d.roll < DimChance ==>
              p.brightness - DimStep <= r.pixel.brightness < p.brightness &&
              (r.pixel.brightness == 0.0 <==> p.brightness <= DimStep) &&
              (r.lit == lit - 1 <==> r.pixel.brightness == 0.0) &&
              (r.lit == lit || r.lit == lit - 1)
    // above one step, the dimming roll subtracts exactly 0.01 and keeps the counter
    ensures p.brightness > DimStep && d.roll < DimChance ==>
              r.pixel.brightness == p.brightness - DimStep && r.lit == lit
    // the nudge is added in full when it stays inside [0, 0.1], and clamped otherwise
    ensures p.brightness > 0.0 && d.roll >= DimChance &&
            0.0 <= p.brightness + d.delta <= MaxBrightness ==>
              r.pixel.brightness == p.brightness + d.delta
    ensures p.brightness > 0.0 && d.roll >= DimChance && p.brightness + d.delta > MaxBrightness ==>
              r.pixel.brightness == MaxBrightness
    ensures p.brightness > 0.0 && d.roll >= DimChance && p.brightness + d.delta < 0.0 ==>
              r.pixel.brightness == 0.0
    // otherwise a nudge of at most |delta|, capped at 0.1; the counter is kept
    ensures Bounded(p) && p.brightness > 0.0 && d.roll >= DimChance ==>
              Abs(r.pixel.brightness - p.brightness) <= Abs(d.delta)
    ensures p.brightness > 0.0 && d.roll >= DimChance ==> r.lit == lit
    ensures p.brightness > 0.0 && d.roll >= DimChance ==> r.pixel.brightness <= MaxBrightness
  {
    if p.brightness > 0.0 then
      if d.roll < DimChance then
        var b := p.brightness - DimStep;
        var lit' := if b <= 0.0 then lit - 1 else lit;
        Step(Pixel(Max(0.0, b), p.color), lit')
      else
        Step(Pixel(Max(0.0, Min(MaxBrightness, p.brightness + d.delta)), p.color), lit)
    else if lit < maxLit && d.roll < ActivateChance then
      Step(Activated(d), lit + 1)
    else
      Step(p, lit)
  }

  /** The pixel states and the lit counter at the end of a pass. */
  datatype Tick = Tick(pixels: seq<Pixel>, lit: int)

  /** The loop from pixel i on; `cur` holds the updated states below i and
      the states from the start of the pass from i on. */
  function PassFrom(cur: seq<Pixel>, draws: seq<Draw>, i: nat, lit: int, maxLit: int): (r: Tick)
    requires |cur| == NumLeds && |draws| == NumLeds && i <= NumLeds
    ensures |r.pixels| == NumLeds
    ensures lit - LitCount(cur) <= r.lit - LitCount(r.pixels)
    ensures lit <= maxLit ==> r.lit <= maxLit
    decreases NumLeds - i
  {
    if i == NumLeds then
      Tick(cur, lit)
    else
      var st := StepPixel(cur[i], draws[i], lit, maxLit);
      LitCountUpdate(cur, i, st.pixel);
      PassFrom(cur[i := st.pixel], draws, i + 1, st.lit, maxLit)
  }

  /** The running counter the loop holds on reaching pixel j, when it
      reached pixel i holding `lit`: each pixel in between steps once and
      passes its counter on. Only states from i on are read. */
  function CounterAt(cur: seq<Pixel>, draws: seq<Draw>, i: nat, lit: int, maxLit: int, j: nat): int
    requires |cur| == NumLeds && |draws| == NumLeds && i <= j <= NumLeds
    decreases j - i
  {
    if i == j then lit
    else CounterAt(cur, draws, i + 1, StepPixel(cur[i], draws[i], lit, maxLit).lit, maxLit, j)
  }

  /** The counter does not depend on the states before the pixel it starts at. */
  lemma {:induction false} CounterAtFrame(cur: seq<Pixel>, cur': seq<Pixel>, draws: seq<Draw>,
                                          i: nat, lit: int, maxLit: int, j: nat)
    requires |cur| == NumLeds && |cur'| == NumLeds && |draws| == NumLeds && i <= j <= NumLeds
    requires forall k :: i <= k < NumLeds ==> cur[k] == cur'[k]
    ensures CounterAt(cur, draws, i, lit, maxLit, j) == CounterAt(cur', draws, i, lit, maxLit, j)
    decreases j - i
  {
    if i < j {
      var next := StepPixel(cur[i], draws[i], lit, maxLit).lit;
      CounterAtFrame(cur, cur', draws, i + 1, next, maxLit, j);
    }
  }

  /** Every pixel from i on becomes its `StepPixel` under the counter the loop
      holds on reaching it, from its state at the start of the pass, and the
      loop ends with the counter it holds after the last pixel. */
  lemma {:induction false} PassFromSteps(cur: seq<Pixel>, draws: seq<Draw>, i: nat, lit: int, maxLit: int)
    requires |cur| == NumLeds && |draws| == NumLeds && i <= NumLeds
    ensures var r := PassFrom(cur, draws, i, lit, maxLit);
            && (forall j :: i <= j < NumLeds ==>
                  r.pixels[j] == StepPixel(cur[j], draws[j], CounterAt(cur, draws, i, lit, maxLit, j), maxLit).pixel)
            && r.lit == CounterAt(cur, draws, i, lit, maxLit, NumLeds)
    decreases NumLeds - i
  {
    if i < NumLeds {
      var st := StepPixel(cur[i], draws[i], lit, maxLit);
      var cur' := cur[i := st.pixel];
      var r := PassFrom(cur', draws, i + 1, st.lit, maxLit);
      assert PassFrom(cur, draws, i, lit, maxLit) == r;
      PassFromSteps(cur', draws, i + 1, st.lit, maxLit);
      PassFromPixels(cur', draws, i + 1, st.lit, maxLit);
      assert r.pixels[i] == st.pixel;
      forall j | i + 1 <= j <= NumLeds
        ensures CounterAt(cur', draws, i + 1, st.lit, maxLit, j) == CounterAt(cur, draws, i, lit, maxLit, j)
      {
        CounterAtFrame(cur', cur, draws, i + 1, st.lit, maxLit, j);
      }
    }
  }

  /** Pixels already visited are left alone, brightness bounds are kept,
      and a pixel changes colour only by activating. */
  lemma {:induction false} PassFromPixels(cur: seq<Pixel>, draws: seq<Draw>, i: nat, lit: int, maxLit: int)
    requires |cur| == NumLeds && |draws| == NumLeds && i <= NumLeds
    ensures var r := PassFrom(cur, draws, i, lit, maxLit);
            && (AllBounded(cur) ==> AllBounded(r.pixels))
            && (forall j :: 0 <= j < i ==> r.pixels[j] == cur[j])
            && (forall j :: i <= j < NumLeds ==>
                  r.pixels[j].color == cur[j].color ||
                  (cur[j].brightness <= 0.0 && r.pixels[j] == Activated(draws[j])))
    decreases NumLeds - i
  {
    if i < NumLeds {
      var st := StepPixel(cur[i], draws[i], lit, maxLit);
      PassFromPixels(cur[i := st.pixel], draws, i + 1, st.lit, maxLit);
    }
  }

  /** The pixel states after one pass. */
  function WalkPixels(pixels: seq<Pixel>, draws: seq<Draw>, maxLit: int): (r: seq<Pixel>)
    requires |pixels| == NumLeds && |draws| == NumLeds
    ensures |r| == NumLeds
    ensures AllBounded(pixels) ==> AllBounded(r)
    ensures LitCount(pixels) <= maxLit ==> LitCount(r) <= maxLit
  {
    WalkTick(pixels, draws, maxLit).pixels
  }

  /** This loop shows a pixel's colour scaled by its brightness alone. */
  const Unscaled: real := 1.0

  datatype Frame = Frame(pixels: seq<Pixel>, lit: int, strips: Strips)

  /** One pass of the `while True` body: `currently_lit` is recounted from
      the states, every pixel steps once in index order, and every cell of
      the strips receives its pixel's scaled colour. Every strip index is
      below 8 here, so no write is dropped. */
  function WalkPass(pixels: seq<Pixel>, draws: seq<Draw>, strips: Strips, maxLit: int): (r: Frame)
    requires |pixels| == NumLeds && |draws| == NumLeds && WellFormed(strips)
    ensures |r.pixels| == NumLeds && WellFormed(r.strips)
    ensures forall j :: 0 <= j < NumLeds ==>
              r.pixels[j] == StepPixel(pixels[j], draws[j],
                                       CounterAt(pixels, draws, 0, LitCount(pixels), maxLit, j), maxLit).pixel
    ensures r.lit == CounterAt(pixels, draws, 0, LitCount(pixels), maxLit, NumLeds)
    ensures AllBounded(pixels) ==> AllBounded(r.pixels)
    ensures LitCount(r.pixels) <= r.lit
    ensures LitCount(pixels) <= maxLit ==> r.lit <= maxLit && LitCount(r.pixels) <= maxLit
    ensures forall i :: 0 <= i < NumLeds ==>
              r.pixels[i].color == pixels[i].color ||
              (pixels[i].brightness <= 0.0 && r.pixels[i] == Activated(draws[i]))
    ensures forall s, o :: InGrid(s, o) ==> r.strips[s][o] == Shown(r.pixels[Flat(s, o)], Unscaled)
  {
    var t := WalkTick(pixels, draws, maxLit);
    Frame(t.pixels, t.lit, Render(strips, t.pixels, Unscaled))
  }

  /** The pixel states and the counter after the loop over all pixels,
      starting from the count of lit pixels. */
  function WalkTick(pixels: seq<Pixel>, draws: seq<Draw>, maxLit: int): (r: Tick)
    requires |pixels| == NumLeds && |draws| == NumLeds
    ensures |r.pixels| == NumLeds
    // pixel j becomes its step under the counter the loop holds on reaching it
    ensures forall j :: 0 <= j < NumLeds ==>
              r.pixels[j] == StepPixel(pixels[j], draws[j],
                                       CounterAt(pixels, draws, 0, LitCount(pixels), maxLit, j), maxLit).pixel
    ensures r.lit == CounterAt(pixels, draws, 0, LitCount(pixels), maxLit, NumLeds)
    ensures AllBounded(pixels) ==> AllBounded(r.pixels)
    ensures LitCount(r.pixels) <= r.lit
    ensures LitCount(pixels) <= maxLit ==> r.lit <= maxLit
    ensures forall i :: 0 <= i < NumLeds ==>
              r.pixels[i].color == pixels[i].color ||
              (pixels[i].brightness <= 0.0 && r.pixels[i] == Activated(draws[i]))
  {
    PassFromPixels(pixels, draws, 0, LitCount(pixels), maxLit);
    PassFromSteps(pixels, draws, 0, LitCount(pixels), maxLit);
    PassFrom(pixels, draws, 0, LitCount(pixels), maxLit)
  }

  /** With the random module's ranges, colours stay valid wheel colours. */
  lemma WalkPassKeepsColorsValid(pixels: seq<Pixel>, draws: seq<Draw>, strips: Strips, maxLit: int)
    requires |pixels| == NumLeds && |draws| == NumLeds && WellFormed(strips)
    requires forall i :: 0 <= i < NumLeds ==> Valid(pixels[i].color) && DrawOk(draws[i])
    ensures forall i :: 0 <= i < NumLeds ==> Valid(WalkPass(pixels, draws, strips, maxLit).pixels[i].color)
  {
  }

  /** Brightness at most 0.1 keeps every displayed channel at most 25. */
  lemma ShownIsDim(p: Pixel)
    requires Bounded(p) && Valid(p.color)
    ensures AtMost(Shown(p, Unscaled), 25)
  {
    assert p.brightness * Unscaled == p.brightness;
    ScaleMonotone(p.color, p.brightness, MaxBrightness);
    var c := p.color;
    assert c.r as real * MaxBrightness <= 25.5;
    assert c.g as real * MaxBrightness <= 25.5;
    assert c.b as real * MaxBrightness <= 25.5;
  }

  /** Several passes in a row, one draw sequence per pass. */
  function Run(pixels: seq<Pixel>, ticks: seq<seq<Draw>>, maxLit: int): (r: seq<Pixel>)
    requires |pixels| == NumLeds
    requires forall t :: 0 <= t < |ticks| ==> |ticks[t]| == NumLeds
    ensures |r| == NumLeds
    decreases |ticks|
  {
    if |ticks| == 0 then pixels
    else
      var rest := ticks[1..];
      assert forall t :: 0 <= t < |rest| ==> rest[t] == ticks[t + 1];
      Run(WalkPixels(pixels, ticks[0], maxLit), rest, maxLit)
  }

  /** Bounded brightness and the cap on lit pixels hold after any number of
      passes once they hold at the start. */
  lemma {:induction false} RunKeepsInvariant(pixels: seq<Pixel>, ticks: seq<seq<Draw>>, maxLit: int)
    requires |pixels| == NumLeds
    requires forall t :: 0 <= t < |ticks| ==> |ticks[t]| == NumLeds
    requires AllBounded(pixels) && LitCount(pixels) <= maxLit
    ensures AllBounded(Run(pixels, ticks, maxLit)) && LitCount(Run(pixels, ticks, maxLit)) <= maxLit
    decreases |ticks|
  {
    if |ticks| > 0 {
      var rest := ticks[1..];
      assert forall t :: 0 <= t < |rest| ==> rest[t] == ticks[t + 1];
      var next := WalkPixels(pixels, ticks[0], maxLit);
      assert AllBounded(next) && LitCount(next) <= maxLit;
      assert Run(pixels, ticks, maxLit) == Run(next, rest, maxLit);
      RunKeepsInvariant(next, rest, maxLit);
    }
  }

  /** From the all-dark start, every pixel's brightness stays in [0, 0.1]
      and at most `maxLit` pixels are lit after every pass. */
  lemma RunFromInitial(ticks: seq<seq<Draw>>, maxLit: int)
    requires 0 <= maxLit
    requires forall t :: 0 <= t < |ticks| ==> |ticks[t]| == NumLeds
    ensures AllBounded(Run(Initial(), ticks, maxLit))
    ensures LitCount(Run(Initial(), ticks, maxLit)) <= maxLit
  {
    LitCountZero(Initial());
    RunKeepsInvariant(Initial(), ticks, maxLit);
  }

  /** With the default cap, at most five pixels are ever lit at once. */
  lemma DefaultCapHolds(ticks: seq<seq<Draw>>)
    requires forall t :: 0 <= t < |ticks| ==> |ticks[t]| == NumLeds
    ensures LitCount(Run(Initial(), ticks, DefaultMaxLit)) <= 5
  {
    RunFromInitial(ticks, DefaultMaxLit);
  }
}
