/** The one-shot twinkle (`twinkle_effect`): after blanking the matrix, 1-4
    chosen pixels are played through a fixed brightness sequence, each in a
    wheel colour determined by its index, and one frame is written per
    brightness step. The choices of the random module are inputs. */
module OneShotTwinkle {
  import opened Colors
  import opened Addressing

  const LowPowerBrightness: real := 0.01

  /** `power_brightness_steps`; the last step is 0, so the sequence ends dark. */
  const PowerBrightnessSteps: seq<real> :=
    [LowPowerBrightness, 0.05, 0.05, 0.045, 0.04, 0.035, 0.03, 0.02, 0.02,
     0.02, 0.02, 0.018, 0.018, 0.015, 0.015, 0.015, 0.0]

  /** The routine draws between one and four twinkles, bounds included. */
  const MinTwinkles := 1
  const MaxTwinkles := 4

  /** The chosen pixels: each drawn uniformly from 0..287; the same pixel
      may be chosen twice. */
  predicate PicksInRange(picks: seq<int>) {
    forall l :: 0 <= l < |picks| ==> 0 <= picks[l] < NumLeds
  }

  /** The hue position of a pixel: its index scaled from 0..287 onto 0..255
      by floor division, then masked to its low eight bits. Masking to eight
      bits is the floor remainder modulo 256 on every integer, negative ones
      included. */
  function HuePosition(ledIndex: int): (pos: int)
    ensures 0 <= pos <= 255
    // on the pixels the routine picks, the mask changes nothing
    ensures 0 <= ledIndex < NumLeds ==> pos == ledIndex * 256 / NumLeds
  {
    (ledIndex * 256 / NumLeds) % 256
  }

  /** The colour a pixel twinkles in: `wheel` of its hue position. */
  function TwinkleColor(ledIndex: int): (c: Color)
    ensures Valid(c) && c.r + c.g + c.b == 255
    // pixels in the first ninth of the matrix lie in the red-green band
    ensures 0 <= ledIndex < 96 ==> c.b == 0
  {
    Wheel(HuePosition(ledIndex))
  }

  /** `frame` shows every chosen pixel in its colour at `brightness` and
      leaves every other cell as it is in `base`. */
  ghost predicate Shows(frame: Strips, picks: seq<int>, brightness: real, base: Strips)
    requires WellFormed(frame) && WellFormed(base)
  {
    forall s, o :: InGrid(s, o) ==>
      frame[s][o] == if Flat(s, o) in picks then Scale(TwinkleColor(Flat(s, o)), brightness)
                     else base[s][o]
  }

  /** The inner `for l in range(num_twinkles)` loop from position l on, at
      one brightness: every chosen pixel gets its colour scaled by it. */
  function LightFrom(buf: Strips, picks: seq<int>, brightness: real, l: nat): (r: Strips)
    requires WellFormed(buf) && PicksInRange(picks) && l <= |picks|
    ensures WellFormed(r)
    ensures Shows(r, picks[l..], brightness, buf)
    decreases |picks| - l
  {
    if l == |picks| then
      buf
    else
      assert picks[l..] == [picks[l]] + picks[l + 1..];
      LightFrom(SetLed(buf, picks[l], Scale(TwinkleColor(picks[l]), brightness)).strips,
                picks, brightness, l + 1)
  }

  /** Lighting the same pixels again only replaces their colours, so the
      cells left alone still come from the first base. */
  lemma ShowsRebase(f2: Strips, f1: Strips, base: Strips, picks: seq<int>, b1: real, b2: real)
    requires WellFormed(f2) && WellFormed(f1) && WellFormed(base)
    requires Shows(f1, picks, b1, base) && Shows(f2, picks, b2, f1)
    ensures Shows(f2, picks, b2, base)
  {
  }

  /** The outer `for brightness in power_brightness_steps` loop over the
      remaining `steps`: one frame per step, each built on the previous one. */
  function FramesFrom(buf: Strips, picks: seq<int>, steps: seq<real>): (frames: seq<Strips>)
    requires WellFormed(buf) && PicksInRange(picks)
    ensures |frames| == |steps|
    ensures forall j :: 0 <= j < |frames| ==> WellFormed(frames[j])
    decreases |steps|
  {
    if |steps| == 0 then
      []
    else
      var frame := LightFrom(buf, picks, steps[0], 0);
      [frame] + FramesFrom(frame, picks, steps[1..])
  }

  /** Frame j shows the chosen pixels at step j's brightness over the buffer
      the loop started from. */
  lemma {:induction false} FramesFromShow(buf: Strips, picks: seq<int>, steps: seq<real>, j: nat)
    requires WellFormed(buf) && PicksInRange(picks) && j < |steps|
    ensures Shows(FramesFrom(buf, picks, steps)[j], picks, steps[j], buf)
    decreases j
  {
    var frame := LightFrom(buf, picks, steps[0], 0);
    assert picks[0..] == picks;
    if j == 0 {
      assert FramesFrom(buf, picks, steps)[0] == frame;
    } else {
      var later := FramesFrom(frame, picks, steps[1..]);
      assert FramesFrom(buf, picks, steps)[j] == later[j - 1];
      FramesFromShow(frame, picks, steps[1..], j - 1);
      ShowsRebase(later[j - 1], frame, buf, picks, steps[0], steps[j]);
    }
  }

  /** The whole routine without its pauses: the frames written to the
      strips, one per brightness step, starting from the blanked matrix. */
  function TwinkleEffect(buf: Strips, picks: seq<int>): (frames: seq<Strips>)
    requires WellFormed(buf) && PicksInRange(picks)
    requires MinTwinkles <= |picks| <= MaxTwinkles
    ensures |frames| == |PowerBrightnessSteps|
    ensures forall j :: 0 <= j < |frames| ==> WellFormed(frames[j])
  {
    FramesFrom(SetAllLeds(buf, Black), picks, PowerBrightnessSteps)
  }

  /** In frame j a chosen pixel shows its colour at step j's brightness and
      every other pixel is black. */
  lemma TwinkleFrame(buf: Strips, picks: seq<int>, j: int, s: int, o: int)
    requires WellFormed(buf) && PicksInRange(picks)
    requires MinTwinkles <= |picks| <= MaxTwinkles
    requires 0 <= j < |PowerBrightnessSteps| && InGrid(s, o)
    ensures TwinkleEffect(buf, picks)[j][s][o] ==
              if Flat(s, o) in picks then Scale(TwinkleColor(Flat(s, o)), PowerBrightnessSteps[j])
              else Black
  {
    FramesFromShow(SetAllLeds(buf, Black), picks, PowerBrightnessSteps, j);
  }

  /** The last step is 0, so after the sequence every pixel is black again,
      the chosen ones included. */
  lemma TwinkleEndsDark(buf: Strips, picks: seq<int>, s: int, o: int)
    requires WellFormed(buf) && PicksInRange(picks)
    requires MinTwinkles <= |picks| <= MaxTwinkles
    requires InGrid(s, o)
    ensures TwinkleEffect(buf, picks)[|PowerBrightnessSteps| - 1][s][o] == Black
  {
    TwinkleFrame(buf, picks, |PowerBrightnessSteps| - 1, s, o);
  }

  /** No brightness step is negative or above 0.05. */
  lemma StepsInRange(j: int)
    requires 0 <= j < |PowerBrightnessSteps|
    ensures 0.0 <= PowerBrightnessSteps[j] <= 0.05
  {
  }

  /** A wheel colour at a brightness up to 0.05 has no channel above 12. */
  lemma DimTwinkleColor(c: Color, f: real)
    requires Valid(c) && 0.0 <= f <= 0.05
    ensures AtMost(Scale(c, f), 12)
  {
    ScaleMonotone(c, f, 0.05);
    assert c.r as real * 0.05 < 13.0 && c.g as real * 0.05 < 13.0 && c.b as real * 0.05 < 13.0;
  }

  /** Every brightness step is at most 0.05, so no twinkle frame ever shows
      a channel above 12. */
  lemma TwinkleIsDim(buf: Strips, picks: seq<int>, j: int, s: int, o: int)
    requires WellFormed(buf) && PicksInRange(picks)
    requires MinTwinkles <= |picks| <= MaxTwinkles
    requires 0 <= j < |PowerBrightnessSteps| && InGrid(s, o)
    ensures AtMost(TwinkleEffect(buf, picks)[j][s][o], 12)
  {
    TwinkleFrame(buf, picks, j, s, o);
    if Flat(s, o) in picks {
      var f := PowerBrightnessSteps[j];
      StepsInRange(j);
      DimTwinkleColor(TwinkleColor(Flat(s, o)), f);
    }
  }
}
