# LED matrix pixel logic, modelled in Dafny

This project models the pixel logic of the MicroPython firmware for an LED matrix module. The matrix has 288 addressable pixels, wired as 8 NeoPixel strips of 36 pixels each. The model covers five parts of `led_matrix.py`:

- **Addressing** (`addressing.dfy`, module `Addressing`). `set_led` splits a flat index with `divmod(index, 36)` into a strip and an offset. It writes the colour only when the strip index is below the strip count. The strip buffers are an immutable 8 x 36 `seq<seq<Color>>`. Python's negative list indexing is modelled too. An index in -288..-1 writes where index + 288 would. An index below -288 is the `IndexError` Python raises. `set_all_leds` is 288 `set_led` calls in index order.
- **Colour model** (`colors.dfy`, module `Colors`). `wheel` is the three-band hue ramp. `scale_color` is `int(c * factor)` per channel. Python's `int()` truncates toward zero, and that is modelled as `Trunc`, which is `Floor` on non-negative reals.
- **One-shot twinkle** (`one_shot.dfy`, module `OneShotTwinkle`). The routine blanks the matrix, then plays `power_brightness_steps` over 1–4 chosen pixels. Each chosen pixel uses the wheel colour of `(index * 256 // 288) & 255`. The result is the list of frames written to the strips, one per brightness step. The blanked buffer that `set_all_leds` also flushes before the first step is not among the returned frames.
- **Random-walk twinkle** (`random_walk.dfy`, module `RandomWalk`). This is one pass of the `while True` body of `twinkle_effect_2`. A lit pixel either dims by 0.01 (5% roll) or moves by a nudge in ±0.005, capped at 0.1 and floored at 0. A dark pixel may switch on at brightness 0.01 with a new wheel colour. It does so only while the running `currently_lit` counter is below `max_lit` and a 1% roll succeeds.
- **Envelope twinkle** (`envelope.dfy`, module `EnvelopeTwinkle`). This is one pass of the `while True` body of `twinkle_effect_3`. Each pixel has an animation index into the 33-entry `brightness_animation_1`. An idle pixel (index 0) may start at index 1. An active pixel advances by one per pass and returns to 0 after index 33. The pixel displays `brightness_animation_1[index - 1]`, scaled by `brightness_scale`.

The `(brightness, colour)` records that both loops keep in `led_states` live in `pixels.dfy` (module `Pixels`). So do the count of pixels with brightness > 0 that both loops take at the start of a pass, and the colour a pixel displays on its strip.

Each random number is an explicit input: a per-pixel `Draw` record holding the roll, the nudge and the hue the pixel would consume. A pass is therefore a pure function of the state and its draws. `Run` in both loop modules strings several passes together, so that invariants can be stated across passes.

Behaviour of the code that the model reproduces as written:

- `wheel(85) == (255, 0, 0)` and `wheel(170) == (0, 0, 255)`. The band boundaries are the pure primaries, not mid-ramp mixes.
- The envelope loop has no hard cap. It compares `max_lit` only with the count taken at the start of the pass and never raises that count inside the pass (`led_matrix.py:140, 150-154`). So every idle pixel whose roll succeeds starts in the same pass (`EnvelopeTwinkle.NoHardCap`). A pixel that has just started also has brightness `brightness_animation_1[0] == 0`, so the next pass does not count it either.
- An activated envelope pixel starts at index 1, not 0. It is active for 33 passes and is idle again on the 33rd pass after the one that started it.
- In the random-walk loop, the nudge branch can bring a brightness down to 0 without decrementing `currently_lit`. The counter can therefore only over-count.

## Model

| member | source | states |
|---|---|---|
| `Addressing.SetLed` | led_matrix.py:17-26 | For -288 <= index < 288, exactly the cell whose flat index is `index mod 288` (strip `index // 36`, offset `index % 36` for a non-negative index) becomes the colour. Every other cell of every strip is unchanged. An index >= 288 changes nothing. An index < -288 is an IndexError. |
| `Addressing.StripOf` | led_matrix.py:24 | The strip half of `divmod(index, 36)`: indices 0..287 fall on strips 0..7, an index >= 288 on a strip >= 8 (which `set_led` skips), and an index below -288 on a strip below -8. |
| `Addressing.OffsetOf` | led_matrix.py:24 | The offset half of `divmod(index, 36)`: always in 0..35, and strip * 36 + offset gives the index back, negative indices included. |
| `Addressing.AddressingBijective` | led_matrix.py:17-18 | Every index 0..287 maps to a cell of the 8 x 36 grid, and every cell maps back to exactly one index. |
| `Addressing.WriteFrom` | led_matrix.py:37-39 | Writing indices x..287 in order sets exactly the cells with flat index >= x and leaves the others unchanged. |
| `Addressing.SetAllLeds` | led_matrix.py:37-40 | Afterwards every one of the 8 x 36 cells holds the given colour. |
| `Colors.Trunc` | led_matrix.py:43 | `int()` on a real: for x >= 0 the result is the largest integer <= x; for x < 0 it is the smallest integer >= x. |
| `Colors.ScaleChannel` | led_matrix.py:43 | For c >= 0 and factor >= 0 the channel is `Floor(c * factor)`. For a factor in [0, 1] it lies in [0, c]. Factor 0 gives 0 and factor 1 gives c. |
| `Colors.Scale` | led_matrix.py:42-43 | For a valid colour and a factor in [0, 1], every channel stays valid and no larger than before. Factor 0 gives black and factor 1 returns the colour unchanged. |
| `Colors.ScaleMonotone` | led_matrix.py:42-43 | A smaller factor never yields a larger channel. |
| `Colors.Wheel` | led_matrix.py:45-54 | For 0 <= pos <= 255 every channel is in [0, 255], the channels sum to 255, and at least one channel is 0. |
| `Colors.WheelBoundaries` | led_matrix.py:45-54 | `wheel(0) == (0,255,0)`, `wheel(85) == (255,0,0)`, `wheel(170) == (0,0,255)`, and `wheel(255) == wheel(0)`. |
| `Colors.WheelRoundTrip` | led_matrix.py:45-54 | Reading the band and offset back off `wheel(pos)` recovers pos for 0..254; 255 reads back as 0. |
| `Colors.WheelInjective` | led_matrix.py:45-54 | Two positions in 0..255 give the same colour only if they are 0 and 255. |
| `OneShotTwinkle.HuePosition` | led_matrix.py:71 | The hue position is always in [0, 255]. For a pixel index in [0, 287] the `& 255` mask is a no-op. |
| `OneShotTwinkle.TwinkleColor` | led_matrix.py:71 | A chosen pixel's colour is a valid wheel colour whose channels sum to 255; pixels 0..95 get a colour from the red-green band (blue 0). |
| `OneShotTwinkle.LightFrom` | led_matrix.py:74-76 | After the inner loop, each chosen pixel shows its wheel colour scaled by the step's brightness, and every other cell is unchanged. |
| `OneShotTwinkle.FramesFrom` | led_matrix.py:73-80 | The outer loop writes one frame per brightness step, each a full 8 x 36 buffer. What each frame shows is stated by `FramesFromShow`. |
| `OneShotTwinkle.TwinkleEffect` | led_matrix.py:56-83 | The routine yields exactly one frame per entry of `power_brightness_steps` (17), each a full 8 x 36 buffer. Its contents are pinned by `TwinkleFrame`. The flush of the blanked buffer by `set_all_leds` (line 40) comes before these and is not one of them. |
| `OneShotTwinkle.FramesFromShow` | led_matrix.py:73-80 | Frame j of the outer loop shows the chosen pixels at step j's brightness over the buffer the loop started from. |
| `OneShotTwinkle.TwinkleFrame` | led_matrix.py:56-80 | In frame j of the routine, a chosen pixel shows its wheel colour at `power_brightness_steps[j]` and every other pixel is black. |
| `OneShotTwinkle.TwinkleEndsDark` | led_matrix.py:73-76 | Because the last brightness step is 0, the final frame is entirely black, chosen pixels included. |
| `OneShotTwinkle.TwinkleIsDim` | led_matrix.py:73-76 | No brightness step exceeds 0.05, so no twinkle frame shows a channel above 12. |
| `Pixels.LitCount` | led_matrix.py:91 | The number of pixels with positive brightness is never more than the number of pixels. Its zero and full cases are characterised by `LitCountZero` and `LitCountFull`. |
| `Pixels.LitCountUpdate` | led_matrix.py:91 | Replacing one pixel changes the lit count by exactly that pixel's own contribution. |
| `Pixels.LitCountZero` | led_matrix.py:91 | The lit count is 0 if and only if no pixel has positive brightness. |
| `Pixels.LitCountFull` | led_matrix.py:140 | The lit count equals the number of pixels if and only if every pixel has positive brightness. |
| `Pixels.Shown` | led_matrix.py:168 | What a pixel displays: its colour scaled by brightness times the routine's scale (0.08 by default in the envelope loop; 1 in the random-walk loop, line 123). Brightness 0 displays black at any scale. With a valid colour and a combined factor in [0, 1], the displayed colour is valid and no brighter in any channel. |
| `Pixels.Render` | led_matrix.py:167-168 | Every cell receives its own pixel's shown colour, as the per-iteration write of both loops (also line 123) does. |
| `RandomWalk.StepPixel` | led_matrix.py:97-120 | Brightness in [0, 0.1] stays in [0, 0.1]. The counter never falls further behind the true lit count, and grows only by one activation taken below `max_lit`. A lit pixel keeps its colour. On a dimming roll (below 0.05) it gets exactly 0.01 darker when above 0.01, and otherwise goes to 0; the counter drops by one exactly when it reaches 0. Otherwise the nudge is added in full when the result stays in [0, 0.1], and the result is clamped to 0.1 above and to 0 below; the counter is kept. A dark pixel activates at 0.01 with `wheel(hue)` if and only if the counter is below the cap and the roll is below 0.01; otherwise it and the counter are unchanged. |
| `RandomWalk.Activated` | led_matrix.py:116-117 | A newly switched-on pixel is lit, within [0, 0.1], and for a hue in 0..255 has a valid wheel colour whose channels sum to 255. |
| `RandomWalk.PassFrom` | led_matrix.py:93-120 | Over the rest of the loop, the counter's surplus over the true lit count never shrinks, and a counter at or below `max_lit` stays at or below it. |
| `RandomWalk.CounterAtFrame` | led_matrix.py:93-120 | The running counter the loop holds on reaching a pixel depends only on the states from where it started counting on, not on the pixels already updated before that. |
| `RandomWalk.PassFromSteps` | led_matrix.py:93-120 | Over the rest of the loop, each pixel becomes `StepPixel` of its start-of-pass state under the running counter the loop holds on reaching it (`CounterAt`: the counter passed on by each earlier pixel's step), and the loop ends holding the counter passed on by the last pixel. |
| `RandomWalk.PassFromPixels` | led_matrix.py:93-120 | Over the rest of the loop, brightness bounds are kept, pixels already visited are left alone, and a pixel changes colour only by activating. |
| `RandomWalk.WalkTick` | led_matrix.py:89-120 | After a pass that starts from the true count, the counter is at least the true lit count. If at most `max_lit` pixels were lit at the start, the counter ends at or below `max_lit`. Brightness bounds hold and colour changes only on activation. Each pixel becomes `StepPixel` of its old state under the running counter it sees, which starts from the true count and is passed from pixel to pixel in index order; the final counter is the one the last step passes on. |
| `RandomWalk.WalkPixels` | led_matrix.py:89-120 | One pass keeps every brightness in [0, 0.1], and keeps the lit count at or below `max_lit` when it started there. |
| `RandomWalk.WalkPass` | led_matrix.py:89-127 | The guarantees of `WalkTick` hold, including each pixel's new state being its step under the running counter, and every strip cell holds `scale_color(colour, brightness)` of its pixel's new state. |
| `RandomWalk.WalkPassKeepsColorsValid` | led_matrix.py:116 | With hues in 0..255, every pixel colour stays a valid RGB triple. |
| `RandomWalk.ShownIsDim` | led_matrix.py:123 | A pixel with brightness at most 0.1 displays no channel above 25. |
| `RandomWalk.RunKeepsInvariant` | led_matrix.py:89-120 | Brightness bounds and "at most `max_lit` lit" hold after any number of passes once they hold at the start. |
| `RandomWalk.Run` | led_matrix.py:89-128 | Repeated passes of the `while True` body keep 288 pixel states. Invariants across passes are `RunKeepsInvariant` and `RunFromInitial`. |
| `RandomWalk.RunFromInitial` | led_matrix.py:86-120 | From the all-dark start, every brightness stays in [0, 0.1] and at most `max_lit` pixels are lit after every pass. |
| `RandomWalk.DefaultCapHolds` | led_matrix.py:85-120 | With the default `max_lit` of 5, at most five pixels are lit after any number of passes from the start. |
| `EnvelopeTwinkle.AnimationBrightness` | led_matrix.py:161 | The displayed multiplier is in [0, 1]. Index 0 reads the last entry and is dark. A pixel is lit exactly when its index is in 2..32. |
| `EnvelopeTwinkle.Advance` | led_matrix.py:149-159 | The animation index stays within [0, 33]. An idle pixel moves to 1 if and only if it activates and otherwise stays at 0. An active pixel at 1..32 moves to the next index, and one at 33 returns to 0. |
| `EnvelopeTwinkle.StepPixel` | led_matrix.py:146-165 | The index stays in range, and the brightness is the table entry for the new index. The colour changes only when an idle pixel starts at index 1, and then it becomes `wheel(hue)` while the brightness is still 0. An idle pixel starts exactly when the count is below `max_lit` and its roll is below 0.0005; otherwise it stays idle and dark in its old colour. An active pixel advances regardless of the draws and keeps its colour. |
| `EnvelopeTwinkle.EnvelopeStates` | led_matrix.py:138-165 | Every pixel's index advances as the state machine says, using the count from the start of the pass. Its brightness is the table entry for the new index, and its colour changes only on activation, when it becomes the wheel colour of the pixel's hue. |
| `EnvelopeTwinkle.EnvelopePass` | led_matrix.py:138-168 | The new pixel states and indices are those of the pass's state update (`EnvelopeStates`), and every strip cell holds its pixel's colour scaled by brightness times `brightness_scale`. |
| `EnvelopeTwinkle.DefaultScaleIsDim` | led_matrix.py:133-168 | At the default `brightness_scale` of 0.08, no pixel at a table brightness shows a channel above 20. |
| `EnvelopeTwinkle.IdleIsBlack` | led_matrix.py:161-168 | A pixel that is idle after the pass shows black on its strip. |
| `EnvelopeTwinkle.ActivationGate` | led_matrix.py:150-154 | A pixel is at index 1 after the pass if and only if it was idle, the start-of-pass count was below `max_lit`, and its roll succeeded. |
| `EnvelopeTwinkle.EnvelopeKeepsColorsValid` | led_matrix.py:153 | With hues in 0..255, every pixel colour stays a valid RGB triple. |
| `EnvelopeTwinkle.Run` | led_matrix.py:138-173 | Repeated passes of the `while True` body keep 288 pixel states and every animation index in 0..33. |
| `EnvelopeTwinkle.RunLifetime` | led_matrix.py:149-161 | A pixel at index k >= 1 advances by exactly one per pass whatever the draws, and is idle on the (34 - k)-th pass. |
| `EnvelopeTwinkle.ActiveFor33Passes` | led_matrix.py:149-161 | Counting from the pass that leaves a pixel at index 1, the pixel is at index 1 + n after n further passes (n < 33) and idle after 33 further passes. |
| `EnvelopeTwinkle.FirstPassActivatesAll` | led_matrix.py:150-154 | With the default `max_lit` of 5, all pixels idle and every roll succeeding, all 288 pixels start in one pass. |
| `EnvelopeTwinkle.NoHardCap` | led_matrix.py:140-161 | In that scenario all 288 pixels are lit at once on the second pass, far above `max_lit`. |

## Left out

- Hardware I/O is not modelled: `Pin`/`NeoPixel` construction, `strip.write()`, `update_leds` and `set_led_debug` (led_matrix.py:19-20, 28-35), plus the flushes inside the routines. The strips are plain sequences. The driver's conversion of a colour into GRB bytes is not modelled either.
- The `time.sleep` pacing and the infinite `while True` loops are not modelled. Each loop is one pass as a function, and `Run` composes passes.
- The `random` module is not modelled. Its results are inputs, and its distribution is not modelled. Per pixel, the model takes one roll, one nudge and one hue, instead of one shared stream consumed in call order.
- Float rounding is not modelled: brightness and factors are exact reals. In particular, the `<= 0` test after dimming is exact.
- The `lit_leds` arrays (led_matrix.py:87, 104, 118, 135) are left out. They are only ever written, and no invariant is claimed about them.
- `twinkle_color` (led_matrix.py:57) is computed and never used, so it is left out. The same holds for `led_update_counter` and `loop_counter`.
- `gpio_starting_pin` only feeds the pin numbers of the strips (led_matrix.py:19), so it is left out with the rest of the hardware setup.
- `selected_color` is not stored separately. The colour of a chosen pixel is recomputed from its index, which gives the same value.
- Linear colour interpolation is left out: `led_matrix.py` has no such routine.
- `boards/FRAMEWORK_RGBMODULE/mpconfigboard.h` is left out: it only holds build-time `#define`s.
- `RandomWalk.StepPixel`: the random draws are not required to lie in their ranges. Brightness bounds and counter soundness hold for any draws. Colour validity is stated separately, assuming in-range hues.
- `EnvelopeTwinkle.StepPixel`: the pass requires every animation index to be in 0..33. The routine only ever creates zeros and keeps them in that range. An index outside it would make the Python list access misbehave or raise, and that is not modelled.
