/** The colour model of the LED matrix: 8-bit RGB triples, the three-band
    hue wheel and linear scaling with integer truncation. */
module Colors {

  /** An (R, G, B) triple as the firmware stores it. Channels are plain
      integers: nothing in the source clamps them, so validity is a
      separate predicate. */
  datatype Color = Color(r: int, g: int, b: int)

  const Black := Color(0, 0, 0)

  predicate ChannelOk(x: int) {
    0 <= x <= 255
  }

  predicate Valid(c: Color) {
    ChannelOk(c.r) && ChannelOk(c.g) && ChannelOk(c.b)
  }

  /** Every channel is a valid byte no larger than `bound`. */
  predicate AtMost(c: Color, bound: int) {
    Valid(c) && c.r <= bound && c.g <= bound && c.b <= bound
  }

  /** Python's `int()` applied to a float: truncation toward zero. */
  function Trunc(x: real): (n: int)
    ensures 0.0 <= x ==> 0 <= n && n as real <= x < n as real + 1.0
    ensures x < 0.0 ==> n <= 0 && n as real - 1.0 < x <= n as real
  {
    if x >= 0.0 then x.Floor else -((-x).Floor)
  }

  /** One channel of `scale_color`: `int(c * factor)`. */
  function ScaleChannel(x: int, factor: real): (y: int)
    ensures 0 <= x && 0.0 <= factor ==> y == (x as real * factor).Floor
    ensures 0 <= x && 0.0 <= factor <= 1.0 ==> 0 <= y <= x
    ensures factor == 0.0 ==> y == 0
    ensures factor == 1.0 ==> y == x
  {
    var p := x as real * factor;
    if 0 <= x && 0.0 <= factor <= 1.0 then
      ProductAtMost(x as real, factor);
      Trunc(p)
    else
      Trunc(p)
  }

  lemma ProductAtMost(x: real, f: real)
    requires 0.0 <= x && 0.0 <= f <= 1.0
    ensures 0.0 <= x * f <= x
  {
    assert x * f <= x * 1.0;
  }

  /** `scale_color`: every channel multiplied by `factor` and truncated. */
  function Scale(c: Color, factor: real): (r: Color)
    ensures 0.0 <= factor <= 1.0 && Valid(c) ==>
              Valid(r) && r.r <= c.r && r.g <= c.g && r.b <= c.b
    ensures factor == 0.0 ==> r == Black
    ensures factor == 1.0 ==> r == c
  {
    Color(ScaleChannel(c.r, factor), ScaleChannel(c.g, factor), ScaleChannel(c.b, factor))
  }

  /** Scaling a valid colour is monotone in the factor: a dimmer factor
      never yields a brighter channel. */
  lemma ScaleMonotone(c: Color, f1: real, f2: real)
    requires Valid(c) && 0.0 <= f1 <= f2
    ensures Scale(c, f1).r <= Scale(c, f2).r
    ensures Scale(c, f1).g <= Scale(c, f2).g
    ensures Scale(c, f1).b <= Scale(c, f2).b
  {
    ChannelMonotone(c.r, f1, f2);
    ChannelMonotone(c.g, f1, f2);
    ChannelMonotone(c.b, f1, f2);
  }

  lemma ChannelMonotone(x: int, f1: real, f2: real)
    requires 0 <= x && 0.0 <= f1 <= f2
    ensures ScaleChannel(x, f1) <= ScaleChannel(x, f2)
  {
    var xr := x as real;
    MulNonneg(xr, f1);
    MulNonneg(xr, f2 - f1);
    var p1, p2 := xr * f1, xr * f2;
    assert p2 == p1 + xr * (f2 - f1);
    assert p1.Floor as real <= p1 <= p2 < p2.Floor as real + 1.0;
  }

  lemma MulNonneg(a: real, b: real)
    requires 0.0 <= a && 0.0 <= b
    ensures 0.0 <= a * b
  {
  }

  /** `wheel`: a rainbow over positions 0..255 in three 85-wide bands,
      each linear in two channels and zero in the third. */
  function Wheel(pos: int): (c: Color)
    ensures 0 <= pos <= 255 ==> Valid(c)
    ensures 0 <= pos <= 255 ==> c.r + c.g + c.b == 255
    ensures 0 <= pos <= 255 ==> c.r == 0 || c.g == 0 || c.b == 0
  {
    if pos < 85 then
      Color(pos * 3, 255 - pos * 3, 0)
    else if pos < 170 then
      var p := pos - 85;
      Color(255 - p * 3, 0, p * 3)
    else
      var p := pos - 170;
      Color(0, p * 3, 255 - p * 3)
  }

  /** The band boundaries as the code draws them. */
  lemma WheelBoundaries()
    ensures Wheel(0) == Color(0, 255, 0)
    ensures Wheel(85) == Color(255, 0, 0)
    ensures Wheel(170) == Color(0, 0, 255)
    ensures Wheel(255) == Wheel(0)
  {
  }

  /** Reads a wheel position back off a wheel colour: the band is the one
      whose "off" channel is zero, the offset is the rising channel / 3. */
  function WheelPosition(c: Color): int {
    if c.b == 0 then c.r / 3
    else if c.g == 0 then 85 + c.b / 3
    else 170 + c.g / 3
  }

  /** `WheelPosition` inverts `Wheel` on 0..254; position 255 wraps to 0. */
  lemma WheelRoundTrip(pos: int)
    requires 0 <= pos <= 255
    ensures WheelPosition(Wheel(pos)) == pos % 255
  {
    if pos < 85 {
    } else if pos < 170 {
      assert (pos - 85) * 3 / 3 == pos - 85;
    } else {
      assert (pos - 170) * 3 / 3 == pos - 170;
    }
  }

  /** Distinct wheel positions give distinct colours, except the two ends
      of the domain, 0 and 255. */
  lemma WheelInjective(a: int, b: int)
    requires 0 <= a < b <= 255
    ensures Wheel(a) == Wheel(b) <==> a == 0 && b == 255
  {
    WheelRoundTrip(a);
    WheelRoundTrip(b);
    WheelBoundaries();
  }
}
