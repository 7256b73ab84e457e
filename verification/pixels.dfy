/** The per-pixel `(brightness, colour)` record both twinkle loops keep in
    `led_states`, and the "currently lit" count they derive from it. */
module Pixels {
  import opened Colors
  import opened Addressing

  datatype Pixel = Pixel(brightness: real, color: Color)

  /** The state every pixel starts in: brightness 0 and black. */
  const Idle := Pixel(0.0, Black)

  /** The default cap on lit pixels of both twinkle loops. */
  const DefaultMaxLit := 5

  function Initial(): (ps: seq<Pixel>)
    ensures |ps| == NumLeds && forall i :: 0 <= i < |ps| ==> ps[i] == Idle
  {
    seq(NumLeds, _ => Idle)
  }

  /** What a pixel puts on its strip: its colour scaled by its brightness
      times the routine's brightness scale. */
  function Shown(p: Pixel, brightnessScale: real): (c: Color)
    ensures p.brightness == 0.0 ==> c == Black
    ensures Valid(p.color) && 0.0 <= p.brightness * brightnessScale <= 1.0 ==>
              Valid(c) && c.r <= p.color.r && c.g <= p.color.g && c.b <= p.color.b
  {
    assert p.brightness == 0.0 ==> p.brightness * brightnessScale == 0.0;
    Scale(p.color, p.brightness * brightnessScale)
  }

  /** The strip writes of a pass, each pixel's cell receiving its shown
      colour. In both loops iteration i writes pixel i's final state, since
      no later iteration touches pixel i, so writing the whole frame after
      the loop puts the same colours on the strips. */
  function Render(strips: Strips, ps: seq<Pixel>, brightnessScale: real): (r: Strips)
    requires WellFormed(strips) && |ps| == NumLeds
    ensures WellFormed(r)
    ensures forall s, o :: InGrid(s, o) ==> r[s][o] == Shown(ps[Flat(s, o)], brightnessScale)
  {
    var shown := seq(NumLeds, i requires 0 <= i < NumLeds => Shown(ps[i], brightnessScale));
    assert forall i :: 0 <= i < NumLeds ==> shown[i] == Shown(ps[i], brightnessScale);
    WriteFrame(strips, shown)
  }

  /** A pixel is lit when its brightness is strictly positive. */
  function Lit(p: Pixel): nat {
    if p.brightness > 0.0 then 1 else 0
  }

  /** The number of pixels whose brightness is strictly positive, as both
      loops count it at the start of a pass. */
  function LitCount(ps: seq<Pixel>): (n: nat)
    ensures n <= |ps|
  {
    if |ps| == 0 then 0 else Lit(ps[0]) + LitCount(ps[1..])
  }

  /** Replacing one pixel changes the count by that pixel's contribution. */
  lemma {:induction false} LitCountUpdate(ps: seq<Pixel>, i: int, p: Pixel)
    requires 0 <= i < |ps|
    ensures LitCount(ps[i := p]) == LitCount(ps) - Lit(ps[i]) + Lit(p)
  {
    if i == 0 {
      assert ps[i := p][1..] == ps[1..];
    } else {
      assert ps[i := p][1..] == ps[1..][i - 1 := p];
      LitCountUpdate(ps[1..], i - 1, p);
    }
  }

  /** The count is zero exactly when no pixel has positive brightness. */
  lemma {:induction false} LitCountZero(ps: seq<Pixel>)
    ensures LitCount(ps) == 0 <==> forall i :: 0 <= i < |ps| ==> ps[i].brightness <= 0.0
  {
    if |ps| > 0 {
      LitCountZero(ps[1..]);
      assert forall i :: 1 <= i < |ps| ==> ps[i] == ps[1..][i - 1];
    }
  }

  /** The count is the full length exactly when every pixel is lit. */
  lemma {:induction false} LitCountFull(ps: seq<Pixel>)
    ensures LitCount(ps) == |ps| <==> forall i :: 0 <= i < |ps| ==> ps[i].brightness > 0.0
  {
    if |ps| > 0 {
      LitCountFull(ps[1..]);
      assert forall i :: 1 <= i < |ps| ==> ps[i] == ps[1..][i - 1];
    }
  }
}
