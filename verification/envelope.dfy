/** One pass of the envelope twinkle (`twinkle_effect_3`): each pixel carries
    an animation index into `brightness_animation_1`; an idle pixel (index 0)
    may start a new envelope, an active one advances by one entry per pass
    and returns to idle after the last. The random numbers are inputs. */
module EnvelopeTwinkle {
  import opened Colors
  import opened Addressing
  import opened Pixels

  /** `brightness_animation_1`: 33 multipliers rising to 1 and falling to 0. */
  const BrightnessAnimation: seq<real> :=
    [0.0, 0.1, 0.2, 0.3, 0.4, 0.5, 0.6, 0.7, 0.5, 0.4, 0.7, 0.8, 0.9,
     1.0, 1.0, 1.0, 1.0, 1.0, 1.0, 1.0, 1.0, 1.0, 1.0, 1.0,
     0.8, 0.7, 0.5, 0.4, 0.3, 0.2, 0.1, 0.1, 0.0]

  const ActivateChance: real := 0.0005
  /** The default of the `brightness_scale` parameter. */
  const DefaultBrightnessScale: real := 0.08

  /** The random numbers one pixel may consume in one pass: the
      uniform roll in [0, 1) and the hue drawn from 0..255. */
  datatype Draw = Draw(roll: real, hue: int)

  /** The ranges the random module guarantees. */
  predicate DrawOk(d: Draw) {
    0.0 <= d.roll < 1.0 && 0 <= d.hue <= 255
  }

  /** The animation indices the loop can hold: 0 (idle) up to the table
      length (the last entry of an envelope). */
  predicate IndexOk(k: int) {
    0 <= k <= |BrightnessAnimation|
  }

  predicate AllIndicesOk(ks: seq<int>) {
    forall i :: 0 <= i < |ks| ==> IndexOk(ks[i])
  }

  /** The table entry just before index k; for k = 0 Python's index -1 reads the
      last entry, which is 0, so an idle pixel is dark. A pixel counts as lit
      exactly in the middle of its envelope: the first and last entries are
      0, so neither a pixel that has just started nor one about to reset is
      counted. */
  function AnimationBrightness(k: int): (b: real)
    requires IndexOk(k)
    ensures 0.0 <= b <= 1.0
    ensures k == 0 ==> b == 0.0
    ensures b > 0.0 <==> 2 <= k < |BrightnessAnimation|
  {
    var i := k - 1;
    if i < 0 then BrightnessAnimation[|BrightnessAnimation| + i] else BrightnessAnimation[i]
  }

  /** The index update of the loop body: an idle pixel starts at 1 when it
      activates, an active one advances by one, and one past the last entry
      it returns to 0. */
  function Advance(k: int, activate: bool): (k': int)
    requires IndexOk(k)
    ensures IndexOk(k')
    // an idle pixel starts at 1 or stays idle
    ensures k == 0 ==> (k' == 1 <==> activate) && (k' == 0 <==> !activate)
    // an active pixel ignores the roll: it steps on, or resets after the last entry
    ensures 1 <= k < |BrightnessAnimation| ==> k' == k + 1
    ensures k == |BrightnessAnimation| ==> k' == 0
  {
    if k == 0 then
      if activate then 1 else 0
    else if |BrightnessAnimation| == k then
      0
    else
      k + 1
  }

  /** A pixel's `(brightness, colour)` record and its animation index. */
  datatype Cell = Cell(pixel: Pixel, index: int)

  /** The body of the per-pixel loop for one pixel; `lit` is the count taken
      at the start of the pass. Only an idle pixel looks at the cap and the
      roll: it starts when the count is below the cap and the roll is below
      0.0005. */
  function StepPixel(p: Pixel, k: int, d: Draw, lit: int, maxLit: int): (r: Cell)
    requires IndexOk(k)
    ensures IndexOk(r.index)
    ensures r.pixel.brightness == AnimationBrightness(r.index)
    // the colour changes only when an idle pixel activates
    ensures r.pixel.color == p.color || (k == 0 && r.index == 1 && r.pixel.color == Wheel(d.hue))
    ensures k == 0 && r.index == 1 <==> k == 0 && lit < maxLit && d.roll < ActivateChance
    // an idle pixel that starts takes the wheel colour of its hue, still dark at index 1
    ensures k == 0 && lit < maxLit && d.roll < ActivateChance ==> r == Cell(Pixel(0.0, Wheel(d.hue)), 1)
    // an idle pixel whose gate or roll fails stays idle, dark and in its colour
    ensures k == 0 && !(lit < maxLit && d.roll < ActivateChance) ==> r == Cell(Pixel(0.0, p.color), 0)
    // an active pixel advances whatever the draws and keeps its colour
    ensures k != 0 ==> r.index == Advance(k, false) && r.pixel.color == p.color
  {
    var activate := lit < maxLit && d.roll < ActivateChance;
    var color := if k == 0 && activate then Wheel(d.hue) else p.color;
    var k' := Advance(k, activate);
    Cell(Pixel(AnimationBrightness(k'), color), k')
  }

  datatype States = States(pixels: seq<Pixel>, indices: seq<int>)

  /** The state updates of one pass. `currently_lit` is counted once at the
      start of the pass and never changed inside it, so every pixel's step
      depends only on its own state, its own draws and that count: the loop
      is a map over the pixels. */
  function EnvelopeStates(pixels: seq<Pixel>, indices: seq<int>, draws: seq<Draw>, maxLit: int): (r: States)
    requires |pixels| == NumLeds && |indices| == NumLeds && |draws| == NumLeds
    requires AllIndicesOk(indices)
    ensures |r.pixels| == NumLeds && |r.indices| == NumLeds && AllIndicesOk(r.indices)
    ensures forall i :: 0 <= i < NumLeds ==>
              r.indices[i] == Advance(indices[i], LitCount(pixels) < maxLit && draws[i].roll < ActivateChance)
    ensures forall i :: 0 <= i < NumLeds ==> r.pixels[i].brightness == AnimationBrightness(r.indices[i])
    ensures forall i :: 0 <= i < NumLeds ==>
              r.pixels[i].color == pixels[i].color ||
              (indices[i] == 0 && r.indices[i] == 1 && r.pixels[i].color == Wheel(draws[i].hue))
    ensures forall i :: 0 <= i < NumLeds && indices[i] == 0 && r.indices[i] == 1 ==>
              r.pixels[i].color == Wheel(draws[i].hue)
  {
    var lit := LitCount(pixels);
    var cells := seq(NumLeds, i requires 0 <= i < NumLeds =>
                   StepPixel(pixels[i], indices[i], draws[i], lit, maxLit));
    States(seq(NumLeds, i requires 0 <= i < NumLeds => cells[i].pixel),
           seq(NumLeds, i requires 0 <= i < NumLeds => cells[i].index))
  }

  datatype Frame = Frame(pixels: seq<Pixel>, indices: seq<int>, strips: Strips)

  /** One pass of the `while True` body: the state updates, and every cell
      of the strips receiving its pixel's colour scaled by brightness times
      `brightness_scale`. */
  function EnvelopePass(pixels: seq<Pixel>, indices: seq<int>, draws: seq<Draw>, strips: Strips,
                        maxLit: int, brightnessScale: real): (r: Frame)
    requires |pixels| == NumLeds && |indices| == NumLeds && |draws| == NumLeds
    requires AllIndicesOk(indices) && WellFormed(strips)
    ensures |r.pixels| == NumLeds && |r.indices| == NumLeds && AllIndicesOk(r.indices)
    ensures var st := EnvelopeStates(pixels, indices, draws, maxLit);
            r.pixels == st.pixels && r.indices == st.indices
    ensures WellFormed(r.strips)
    ensures forall s, o :: InGrid(s, o) ==>
              r.strips[s][o] == Shown(r.pixels[Flat(s, o)], brightnessScale)
  {
    var st := EnvelopeStates(pixels, indices, draws, maxLit);
    Frame(st.pixels, st.indices, Render(strips, st.pixels, brightnessScale))
  }

  /** At the default `brightness_scale` of 0.08, a valid colour at any table
      brightness shows no channel above 20. */
  lemma DefaultScaleIsDim(p: Pixel)
    requires Valid(p.color) && 0.0 <= p.brightness <= 1.0
    ensures AtMost(Shown(p, DefaultBrightnessScale), 20)
  {
    var f := p.brightness * DefaultBrightnessScale;
    assert 0.0 <= f <= DefaultBrightnessScale;
    ScaleMonotone(p.color, f, DefaultBrightnessScale);
    var c := p.color;
    assert c.r as real * DefaultBrightnessScale < 21.0;
    assert c.g as real * DefaultBrightnessScale < 21.0;
    assert c.b as real * DefaultBrightnessScale < 21.0;
  }

  /** An idle pixel (index 0) shows black after a pass. */
  lemma IdleIsBlack(pixels: seq<Pixel>, indices: seq<int>, draws: seq<Draw>, strips: Strips,
                    maxLit: int, brightnessScale: real, s: int, o: int)
    requires |pixels| == NumLeds && |indices| == NumLeds && |draws| == NumLeds
    requires AllIndicesOk(indices) && WellFormed(strips) && InGrid(s, o)
    ensures var r := EnvelopePass(pixels, indices, draws, strips, maxLit, brightnessScale);
            r.indices[Flat(s, o)] == 0 ==> r.strips[s][o] == Black
  {
    var r := EnvelopePass(pixels, indices, draws, strips, maxLit, brightnessScale);
    var f := Flat(s, o);
    if r.indices[f] == 0 {
      var st := EnvelopeStates(pixels, indices, draws, maxLit);
      assert r.pixels == st.pixels && r.indices == st.indices;
    }
  }

  /** Activation is gated on the count at the start of the pass: at or
      above the cap nothing starts, below it every idle pixel whose roll
      succeeds starts, however many there are. */
  lemma ActivationGate(pixels: seq<Pixel>, indices: seq<int>, draws: seq<Draw>, maxLit: int, i: int)
    requires |pixels| == NumLeds && |indices| == NumLeds && |draws| == NumLeds
    requires AllIndicesOk(indices) && 0 <= i < NumLeds
    ensures var r := EnvelopeStates(pixels, indices, draws, maxLit);
            r.indices[i] == 1 <==>
              indices[i] == 0 && LitCount(pixels) < maxLit && draws[i].roll < ActivateChance
  {
  }

  /** With the random module's ranges, colours stay valid wheel colours. */
  lemma EnvelopeKeepsColorsValid(pixels: seq<Pixel>, indices: seq<int>, draws: seq<Draw>, maxLit: int)
    requires |pixels| == NumLeds && |indices| == NumLeds && |draws| == NumLeds
    requires AllIndicesOk(indices)
    requires forall i :: 0 <= i < NumLeds ==> Valid(pixels[i].color) && DrawOk(draws[i])
    ensures forall i :: 0 <= i < NumLeds ==> Valid(EnvelopeStates(pixels, indices, draws, maxLit).pixels[i].color)
  {
  }

  /** Several passes in a row, one draw sequence per pass. */
  function Run(st: States, ticks: seq<seq<Draw>>, maxLit: int): (r: States)
    requires |st.pixels| == NumLeds && |st.indices| == NumLeds && AllIndicesOk(st.indices)
    requires forall t :: 0 <= t < |ticks| ==> |ticks[t]| == NumLeds
    ensures |r.pixels| == NumLeds && |r.indices| == NumLeds && AllIndicesOk(r.indices)
    decreases |ticks|
  {
    if |ticks| == 0 then st
    else
      var rest := ticks[1..];
      assert forall t :: 0 <= t < |rest| ==> rest[t] == ticks[t + 1];
      Run(EnvelopeStates(st.pixels, st.indices, ticks[0], maxLit), rest, maxLit)
  }

  /** Envelope lifetime: a pixel at index k >= 1 advances by exactly one per
      pass whatever the draws, reaches the last entry and is idle again on
      the pass after it. */
  lemma {:induction false} RunLifetime(st: States, ticks: seq<seq<Draw>>, maxLit: int, i: int, k: int)
    requires |st.pixels| == NumLeds && |st.indices| == NumLeds && AllIndicesOk(st.indices)
    requires forall t :: 0 <= t < |ticks| ==> |ticks[t]| == NumLeds
    requires 0 <= i < NumLeds && 1 <= k && st.indices[i] == k
    requires |ticks| <= |BrightnessAnimation| + 1 - k
    ensures Run(st, ticks, maxLit).indices[i] ==
              if |ticks| == |BrightnessAnimation| + 1 - k then 0 else k + |ticks|
    decreases |ticks|
  {
    if |ticks| > 0 {
      var next := EnvelopeStates(st.pixels, st.indices, ticks[0], maxLit);
      var rest := ticks[1..];
      assert forall t :: 0 <= t < |rest| ==> rest[t] == ticks[t + 1];
      if k < |BrightnessAnimation| {
        RunLifetime(next, rest, maxLit, i, k + 1);
      } else {
        assert |ticks| == 1;
      }
    }
  }

  /** A pixel that has just activated stays active for 33 passes in all
      (indices 1 to 33) and is idle on the 33rd pass after activating. */
  lemma ActiveFor33Passes(st: States, ticks: seq<seq<Draw>>, maxLit: int, i: int)
    requires |st.pixels| == NumLeds && |st.indices| == NumLeds && AllIndicesOk(st.indices)
    requires forall t :: 0 <= t < |ticks| ==> |ticks[t]| == NumLeds
    requires 0 <= i < NumLeds && st.indices[i] == 1
    requires |ticks| <= |BrightnessAnimation|
    ensures |ticks| < |BrightnessAnimation| ==> Run(st, ticks, maxLit).indices[i] == 1 + |ticks|
    ensures |ticks| == |BrightnessAnimation| ==> Run(st, ticks, maxLit).indices[i] == 0
  {
    RunLifetime(st, ticks, maxLit, i, 1);
  }

  /** No hard cap: from the all-idle start with the default `max_lit` of 5 and every roll
      succeeding, all 288 pixels activate in the first pass, and on the
      second all of them are lit at once. */
  lemma NoHardCap()
    ensures var draws := seq(NumLeds, _ => Draw(0.0, 0));
            var first := EnvelopeStates(Initial(), seq(NumLeds, _ => 0), draws, DefaultMaxLit);
            var second := EnvelopeStates(first.pixels, first.indices, draws, DefaultMaxLit);
            && (forall i :: 0 <= i < NumLeds ==> first.indices[i] == 1)
            && LitCount(second.pixels) == NumLeds
  {
    var draws := seq(NumLeds, _ => Draw(0.0, 0));
    var first := EnvelopeStates(Initial(), seq(NumLeds, _ => 0), draws, DefaultMaxLit);
    FirstPassActivatesAll(draws);
    assert forall i :: 0 <= i < NumLeds ==> first.pixels[i].brightness == 0.0;
    LitCountZero(first.pixels);
    var second := EnvelopeStates(first.pixels, first.indices, draws, DefaultMaxLit);
    assert forall i :: 0 <= i < NumLeds ==> second.pixels[i].brightness > 0.0;
    LitCountFull(second.pixels);
  }

  lemma FirstPassActivatesAll(draws: seq<Draw>)
    requires draws == seq(NumLeds, _ => Draw(0.0, 0))
    ensures var first := EnvelopeStates(Initial(), seq(NumLeds, _ => 0), draws, DefaultMaxLit);
            forall i :: 0 <= i < NumLeds ==> first.indices[i] == 1
  {
    var idle := seq(NumLeds, _ => 0);
    LitCountZero(Initial());
    assert forall i :: 0 <= i < NumLeds ==> draws[i].roll < ActivateChance && idle[i] == 0;
  }
}
