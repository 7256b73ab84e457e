/** The addressing map: a flat pixel index becomes a (strip, offset) cell of
    eight independent strip buffers of 36 pixels each. */
module Addressing {
  import opened Colors

  const LedsPerStrip := 36
  const NumStrips := 8
  /** The number of logical pixels every routine iterates over (8 * 36). */
  const NumLeds := 288

  /** The strip buffers: one sequence of colours per strip. */
  type Strips = seq<seq<Color>>

  predicate WellFormed(buf: Strips) {
    |buf| == NumStrips && forall s :: 0 <= s < |buf| ==> |buf[s]| == LedsPerStrip
  }

  predicate InGrid(s: int, o: int) {
    0 <= s < NumStrips && 0 <= o < LedsPerStrip
  }

  /** The two halves of Python's `divmod(index, 36)` (floor division, which
      is Dafny's division for a positive divisor). */
  function StripOf(index: int): (s: int)
    ensures 0 <= index < NumLeds ==> 0 <= s < NumStrips
    ensures NumLeds <= index ==> NumStrips <= s
    ensures index < -NumLeds ==> s < -NumStrips
  {
    index / LedsPerStrip
  }

  function OffsetOf(index: int): (o: int)
    ensures 0 <= o < LedsPerStrip
    ensures index == StripOf(index) * LedsPerStrip + o
  {
    index % LedsPerStrip
  }

  /** The flat index of a cell. */
  function Flat(s: int, o: int): int {
    s * LedsPerStrip + o
  }

  /** Indices 0..287 and the 8 x 36 cells are in one-to-one correspondence. */
  lemma AddressingBijective()
    ensures forall i :: 0 <= i < NumLeds ==>
              InGrid(StripOf(i), OffsetOf(i)) && Flat(StripOf(i), OffsetOf(i)) == i
    ensures forall s, o :: InGrid(s, o) ==>
              0 <= Flat(s, o) < NumLeds && StripOf(Flat(s, o)) == s && OffsetOf(Flat(s, o)) == o
  {
    forall s, o | InGrid(s, o)
      ensures StripOf(Flat(s, o)) == s && OffsetOf(Flat(s, o)) == o
    {
      FlatDivMod(s, o);
    }
  }

  lemma FlatDivMod(s: int, o: int)
    requires 0 <= o < LedsPerStrip
    ensures StripOf(Flat(s, o)) == s && OffsetOf(Flat(s, o)) == o
  {
  }

  /** A negative index in -288..-1 lands where index + 288 does: divmod gives
      a strip in -8..-1, which Python's list indexing counts from the end. */
  lemma WrapAddress(index: int)
    requires -NumLeds <= index < 0
    ensures StripOf(index) + NumStrips == StripOf(index + NumLeds)
    ensures OffsetOf(index) == OffsetOf(index + NumLeds)
    ensures -NumStrips <= StripOf(index) < 0
  {
    FlatDivMod(StripOf(index), OffsetOf(index));
    FlatDivMod(StripOf(index) + NumStrips, OffsetOf(index));
  }

  /** What `set_led` does to the buffers: either a new buffer, or the
      IndexError Python raises for a strip index below -8. */
  datatype Written = Written(strips: Strips) | IndexError

  /** `set_led`: splits the index with divmod and stores the colour when the
      strip index is below the strip count; larger indices are dropped. */
  function SetLed(buf: Strips, index: int, color: Color): (w: Written)
    requires WellFormed(buf)
    ensures w.Written? <==> -NumLeds <= index
    ensures w.Written? ==> WellFormed(w.strips)
    ensures NumLeds <= index ==> w == Written(buf)
    ensures -NumLeds <= index < NumLeds ==>
              forall s, o :: InGrid(s, o) ==>
                w.strips[s][o] == if Flat(s, o) == index % NumLeds then color else buf[s][o]
  {
    var strip, led := StripOf(index), OffsetOf(index);
    if strip >= |buf| then
      Written(buf)
    else if strip < -|buf| then
      IndexError
    else
      // a negative strip index counts from the end of the strip list
      var s := if strip < 0 then strip + |buf| else strip;
      CellOfIndex(index);
      Written(Store(buf, s, led, color))
  }

  /** The cell `set_led` writes for an index in -288..287 is the one whose
      flat index is `index % 288`. */
  lemma CellOfIndex(index: int)
    requires -NumLeds <= index < NumLeds
    ensures var strip := StripOf(index);
            var s := if strip < 0 then strip + NumStrips else strip;
            forall s', o' :: InGrid(s', o') ==>
              (Flat(s', o') == index % NumLeds <==> s' == s && o' == OffsetOf(index))
  {
    var k := index % NumLeds;
    if index < 0 { WrapAddress(index); }
    assert StripOf(k) == (if StripOf(index) < 0 then StripOf(index) + NumStrips else StripOf(index));
    AddressingBijective();
  }

  /** Replaces the one cell (s, o). */
  function Store(buf: Strips, s: int, o: int, color: Color): (r: Strips)
    requires WellFormed(buf) && InGrid(s, o)
    ensures WellFormed(r)
    ensures forall s', o' :: InGrid(s', o') ==>
              r[s'][o'] == if s' == s && o' == o then color else buf[s'][o']
  {
    buf[s := buf[s][o := color]]
  }

  /** Writes `colors[i]` at flat index i for every i from x up to 287, one
      `set_led` call per index, in index order. */
  function WriteFrom(buf: Strips, colors: seq<Color>, x: nat): (r: Strips)
    requires WellFormed(buf) && |colors| == NumLeds && x <= NumLeds
    ensures WellFormed(r)
    ensures forall s, o :: InGrid(s, o) ==>
              r[s][o] == if x <= Flat(s, o) then colors[Flat(s, o)] else buf[s][o]
    decreases NumLeds - x
  {
    if x == NumLeds then buf
    else WriteFrom(SetLed(buf, x, colors[x]).strips, colors, x + 1)
  }

  /** One full frame: pixel i shows `colors[i]`. */
  function WriteFrame(buf: Strips, colors: seq<Color>): (r: Strips)
    requires WellFormed(buf) && |colors| == NumLeds
    ensures WellFormed(r)
    ensures forall s, o :: InGrid(s, o) ==> r[s][o] == colors[Flat(s, o)]
  {
    WriteFrom(buf, colors, 0)
  }

  /** `set_all_leds` without the hardware flush: every cell of every strip
      ends up holding `color`. */
  function SetAllLeds(buf: Strips, color: Color): (r: Strips)
    requires WellFormed(buf)
    ensures WellFormed(r)
    ensures forall s, o :: InGrid(s, o) ==> r[s][o] == color
  {
    var colors := seq(NumLeds, _ => color);
    assert forall i :: 0 <= i < NumLeds ==> colors[i] == color;
    WriteFrom(buf, colors, 0)
  }
}
