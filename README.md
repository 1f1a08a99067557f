# Instrumented sorting medium of BeepSortRust, in Dafny

BeepSortRust animates sorting algorithms as a row of bars and plays a tone for the bars being
touched. Every algorithm is written against one interface, `SortingList`, and runs on one of two
media:

- `GuiVec` is the visual medium. It owns the buffer of bars and counts array reads, writes and
  comparisons. It remembers the cells touched last. It paces itself with one render step after
  every `swap` and `set`. That step honours a live delay, a steps-per-frame setting, a Pause
  button and an Exit button. It also picks a tone from a bank of 1001 pre-rendered tones.
- `NonGuiVec` is the headless medium. It makes the same changes to the buffer, counts nothing
  and never asks the algorithm to stop.

The model has five modules, one file each:

- `BarPlugin`: the `Bar` value, a position and a colour.
- `SortingList`: the buffer-level meaning shared by both media. It defines sortedness, the
  single-cell effects of swap and set, runs of such operations, the `isSorted` scan and the
  shuffle.
- `Pacing`: the pure parts of the render step. These are the text-field fallbacks, the sound
  bank, the position-to-tone mapping and the audio throttle.
- `GuiHookVec`: the two media as classes whose methods update their fields in place, plus a
  client scenario.
- `Wrappers`: `Option`.

Inputs from outside the program are parameters:

- `now: real` is the wall clock reading.
- `ui: seq<UiFrame>` holds one record per pass of the render loop. Each record has the two
  buttons, the parse results of the two text fields and the frame time.
- `draws: seq<nat>` are the random numbers of the shuffle.

The fields `reads`, `writes` and `comps` are named `readCount`, `writeCount` and `compCount`,
because `reads` is a Dafny keyword.

## Model

| member | source | states |
|---|---|---|
| BarPlugin.NewBar | src/BarPlugin.rs:14-19 | a bar keeps the position it is given unchanged; its colour depends only on the hue |
| SortingList.SortedIffAdjacent | src/GuiHookVec.rs:221-228 | comparing each bar with its left neighbour, as the scan does, decides sortedness of the whole buffer (both directions) |
| SortingList.DescendingNotSorted | src/GuiHookVec.rs:219-230 | a strictly descending buffer of two or more bars is not sorted |
| SortingList.ScanSorted | src/GuiHookVec.rs:221-228 | the prev-tracking scan (prev starting at 0) returns true exactly when positions never decrease left to right |
| SortingList.NonDecreasingUnique | src/GuiHookVec.rs:219-230 | two non-decreasing sequences with the same multiset of values are equal |
| SortingList.SortedArrangementUnique | src/GuiHookVec.rs:219-230 | two buffers that `isSorted` accepts and that hold the same positions list those positions identically, so any sorting run ends in the same order |
| SortingList.Swapped | src/GuiHookVec.rs:178 | `Vec::swap` puts each of the two cells' bars in the other cell and leaves every other cell as it was |
| SortingList.SwappedPermutes | src/GuiHookVec.rs:178 | a swap keeps the multiset of bars |
| SortingList.SwapTwiceRestores | src/GuiHookVec.rs:178 | swapping the same two cells again restores the buffer (swap is its own inverse) |
| SortingList.SwappedKeepsBounded | src/GuiHookVec.rs:178 | if every position is at most the buffer length, that still holds after a swap |
| SortingList.Updated | src/GuiHookVec.rs:235 | `list[i] = elem` puts `elem` in cell i and leaves every other cell as it was |
| SortingList.UpdatedBars | src/GuiHookVec.rs:235 | a set removes exactly the old bar of cell i from the multiset of bars and adds exactly `elem` |
| SortingList.RunBalance | src/GuiHookVec.rs:283-329 | after any run of in-bounds swaps and sets, the bars of the buffer plus the bars the sets overwrote (`Overwritten`) are exactly the bars before plus the bars the sets wrote: nothing is invented and nothing is dropped except what a set overwrites |
| SortingList.RunKeepsBars | src/GuiHookVec.rs:283-329 | after any run of in-bounds swaps and sets, every bar in the buffer was there before or was written by a set |
| SortingList.SwapsPermute | src/GuiHookVec.rs:283-286 | a run of swaps only permutes the buffer |
| SortingList.Shuffle | src/GuiHookVec.rs:196-198 | the shuffle keeps the length and the multiset of bars, whatever the random draws |
| Pacing.EffectiveSteps | src/GuiHookVec.rs:144-147 | steps per frame is the parsed number, or 1 when the text does not parse |
| Pacing.EffectiveDelay | src/GuiHookVec.rs:149-153 | the delay is infinite (`f32::MAX`) exactly when paused or when the text does not parse; otherwise it is the parsed number |
| Pacing.Reached | src/GuiHookVec.rs:160 | an infinite delay (`f32::MAX`, paused or unparsed) is never reached by the accumulated frame time |
| Pacing.ReachedStays | src/GuiHookVec.rs:160 | once the frame time reaches the delay, more frame time keeps it reached |
| Pacing.GenerateSounds | src/GuiHookVec.rs:81-84 | the sound bank has 1001 tones, tone k at 50 + 2k Hz, from 50 Hz up to 2050 Hz |
| Pacing.ToneIndexFloor | src/GuiHookVec.rs:182 | the tone index `position * 1000 / len` is the floor of the quotient: index times len is at most `position * 1000`, and one more index times len exceeds it |
| Pacing.ToneIndexInBank | src/GuiHookVec.rs:182 | `position * 1000 / len` is below 1001 whenever position is at most len, and is 1000 for the tallest bar |
| Pacing.ToneIndexMonotone | src/GuiHookVec.rs:238 | a taller bar never picks a lower tone than a shorter one |
| Pacing.ShouldPlayAsWritten | src/GuiHookVec.rs:181 | the written throttle test passes whenever the intended one does, so it never holds back a tone the intended test would play |
| Pacing.ThrottleAsWrittenNeverWaits | src/GuiHookVec.rs:181-186 | the throttle test as written passes at every instant after the previous tone, for example 0.01 s after it |
| Pacing.ThrottleSpacing | src/GuiHookVec.rs:181-186 | the intended throttle plays exactly when at least 0.1 s has passed since the previous tone |
| GuiHookVec.GuiHueSpread | src/GuiHookVec.rs:71-77 | bar i of `length` gets hue i/length of the full circle: hue times length is i, the hue lies in [0, 1] for i up to length, and the last bar's hue is 1 |
| GuiHookVec.BoundedPicksToneInBank | src/GuiHookVec.rs:182 | in a buffer whose positions are at most its length, every bar's tone index is inside the bank |
| GuiHookVec.GuiVec.constructor | src/GuiHookVec.rs:70-101 | `length` bars with positions 1..length in order, hue i/length. The buffer is sorted and its positions are bounded by its length. Full sound bank, counters 0, not done, not paused, the given delay, steps per frame 1, nothing skipped, nothing highlighted |
| GuiHookVec.GuiVec.Len | src/GuiHookVec.rs:171-173 | the length is the number of bars in the buffer |
| GuiHookVec.GuiVec.ReadControls | src/GuiHookVec.rs:140-155 | after a rendered frame without Exit, Pause has toggled `isPaused`; steps per frame and delay are the fallback-aware values of the text fields (the delay uses the new pause state); the skipped counter restarts at 0 |
| GuiHookVec.GuiVec.Draw | src/GuiHookVec.rs:104-168 | changes only done, isPaused, renderSkip, delay and skipped, never the buffer, counters or highlights. `done` is never cleared. Returning while done requires an Exit click in the last frame. An Exit click on the first frame, when that frame renders, sets `done` and returns at once, whatever time has passed. `done` becomes set only if some frame had an Exit click. Returning without done requires an unpaused, finite delay. Paused still implies an infinite delay |
| GuiHookVec.GuiVec.Swap | src/GuiHookVec.rs:175-195 | exchanges exactly the two cells (a permutation), adds 2 reads and 2 writes, adds no comparison, highlights [index1, index2], needs the tone index of the bar moved to `index1` to lie in the bank, advances the throttle only when a tone plays, leaves `lastTime` alone, returns `done` and whether its render step finished. `done` is true if it was already set or the first frame of the step renders with an Exit click, and false if it was clear and no frame had an Exit click. When the step finishes on a medium that was already done, some frame had an Exit click (the step never returns on its own while done). When it finishes with `done` clear, the medium is unpaused with a finite delay. When the frames run out first, `done` is unchanged |
| GuiHookVec.GuiVec.Randomize | src/GuiHookVec.rs:196-198 | only the buffer changes; it keeps its length and multiset of bars |
| GuiHookVec.GuiVec.Get | src/GuiHookVec.rs:204-210 | returns the bar at i (i must be in range: `unwrap` panics otherwise), adds 1 read, highlights [i] |
| GuiHookVec.GuiVec.LessThan | src/GuiHookVec.rs:211-214 | true iff position at a < position at b; adds 1 comparison and 2 reads; highlights [b] |
| GuiHookVec.GuiVec.LessThanEqual | src/GuiHookVec.rs:215-218 | true iff position at a <= the raw value b; adds 1 comparison and 1 read; highlights [a] |
| GuiHookVec.GuiVec.IsSorted | src/GuiHookVec.rs:219-230 | true iff positions never decrease; adds exactly len reads; changes nothing else |
| GuiHookVec.GuiVec.Set | src/GuiHookVec.rs:231-248 | replaces exactly cell i with elem, adds 1 read and 1 write, adds no comparison, highlights [i], needs the tone index of `elem` to lie in the bank, advances the throttle only when a tone plays, leaves `lastTime` alone, returns `done` and whether its render step finished. `done` is true if it was already set or the first frame of the step renders with an Exit click, and false if it was clear and no frame had an Exit click. When the step finishes on a medium that was already done, some frame had an Exit click (the step never returns on its own while done). When it finishes with `done` clear, the medium is unpaused with a finite delay. When the frames run out first, `done` is unchanged |
| GuiHookVec.GuiVec.GetListClone | src/GuiHookVec.rs:259-261 | the snapshot lists the buffer's bars in order; it is a value, so later mutations do not reach it |
| GuiHookVec.NonGuiVec.constructor | src/GuiHookVec.rs:271-277 | `length` bars with positions 0..length-1 in order (sorted), hue i; the delay is ignored |
| GuiHookVec.NonGuiVec.Len | src/GuiHookVec.rs:279-281 | the length is the number of bars in the buffer |
| GuiHookVec.NonGuiVec.Swap | src/GuiHookVec.rs:283-286 | exchanges exactly the two cells (a permutation) and returns false |
| GuiHookVec.NonGuiVec.Draw | src/GuiHookVec.rs:288-290 | `swap(0, 0)` leaves the buffer unchanged and needs a non-empty buffer |
| GuiHookVec.NonGuiVec.Randomize | src/GuiHookVec.rs:292-294 | keeps the length and the multiset of bars |
| GuiHookVec.NonGuiVec.Get | src/GuiHookVec.rs:300-303 | returns the bar at i, for i in range |
| GuiHookVec.NonGuiVec.LessThan | src/GuiHookVec.rs:304-307 | true iff position at a < position at b; nothing changes |
| GuiHookVec.NonGuiVec.LessThanEqual | src/GuiHookVec.rs:308-310 | true iff position at a <= the raw value b; nothing changes |
| GuiHookVec.NonGuiVec.IsSorted | src/GuiHookVec.rs:311-321 | true iff positions never decrease left to right |
| GuiHookVec.NonGuiVec.Set | src/GuiHookVec.rs:322-329 | replaces exactly cell i with elem (its `draw` changes nothing) and returns false |
| GuiHookVec.NonGuiVec.GetListClone | src/GuiHookVec.rs:333-335 | the snapshot lists the buffer's bars in order |
| GuiHookVec.FreshGuiScenario | src/GuiHookVec.rs:70-101 | a fresh 5-bar visual medium is sorted. Swapping its two ends makes it unsorted. Swapping them back gives the snapshot positions [1, 2, 3, 4, 5] |

## Left out

- Rendering (`clear_background`, `draw_rectangle`, `draw_text`, the `root_ui` window, `next_frame`) is a foreign UI library. `Draw` keeps only the effect of a rendered frame on the fields. The Exit and Pause clicks and the text fields come in as `UiFrame` inputs.
- The contents of the two text fields are not modelled. Each field starts as the current value's text and the user edits it; the model takes the per-frame parse result of the field as an input instead.
- The delay field's parse result is an `Option<real>`. Rust's `f32` parser also accepts "inf", "-inf" and "NaN". Such text is passed in as `None`, so it is treated like unparseable text (`Forever`). That matches "inf" and "NaN", which never let the step return without Exit. It does not match "-inf", which would let the step return at once.
- The steps field's parse result is an `Option<int>`. Rust's `i32` parser rejects text outside the 32-bit range, so such text falls back to one step per frame. Such text is passed in as `None`; the model does not itself check the range.
- Time is modelled with reals. Frame times, the delay and the clock are `real`, so `f32`/`f64` rounding is not modelled. `f32::MAX` is the value `Delay.Forever`, which no accumulated frame time reaches.
- GuiHookVec.GuiVec.Draw: its loop waits until the delay is reached or Exit is clicked. The model runs it over the frames it is given. If they run out first, the model stops there (`returned` is false) while the real loop would keep waiting.
- GuiHookVec.GuiVec.Draw: the contract states the frame, when the step can return, that an Exit click on a rendering first frame returns at once with `done` set, and the pause invariant. It does not give the final values of `isPaused`, `renderSkip`, `delay` and `skipped` after several frames. `ReadControls` states them for each rendered frame.
- GuiHookVec.GuiVec.Swap: its render step, like `Draw`, runs only over the frames it is given. When they run out before the step finishes, the model returns with `finished` false and `done` unchanged, while the source would still be waiting. So on a medium already done, or paused, the source's `swap` returns only after a further Exit click (a cancelled algorithm's next call returns true only then); the model states this for the calls that finish.
- GuiHookVec.GuiVec.Swap: the source reads the clock twice (test, then update of `lastPlayed`). The model reads it once (`now`).
- GuiHookVec.GuiVec.Swap: the tone lookup is out of range for a bar whose position is well above the buffer length, and the source panics there. The written throttle passes on every call (`ThrottleAsWrittenNeverWaits`), so the model requires the index to lie in the bank on every call. `BoundedPicksToneInBank` shows it holds for every buffer with positions at most its length, as built by `new`.
- GuiHookVec.GuiVec.Swap: `lastPlayed` follows the intended throttle (`ShouldPlay`), not the written test at line 181. Where the two differ (for example `lastPlayed` = 1.1 and `now` = 1.05), the source plays a tone and sets `lastPlayed` to 1.15, while the model plays nothing and keeps 1.1.
- GuiHookVec.GuiVec.Set: its render step is cut off in the same way when the frames run out; `finished` tells the two cases apart.
- GuiHookVec.GuiVec.Set: the same two points hold for `elem`'s tone and for the written test at line 237.
- Audio playback (`play_sound`, volume 0.5 or 1.0, not looped) and tone synthesis (`soundGenerator::generateTone`) are foreign calls. A tone is modelled as its frequency.
- `randomize` calls macroquad's `shuffle`, which is not part of this model. It is modelled as a Fisher-Yates pass whose random numbers are an input. Uniformity is not modelled.
- The read/write/comparison counters are `i32` in the source and unbounded integers here, so overflow is not modelled. Neither is the truncating cast in `self.len() as i32`, nor a `usize` overflow of `position * 1000`.
- `elements()` returns a slice iterator over the buffer. It is not modelled separately; `GetListClone` gives the same reading of the buffer.
- `show()` repeats the render step until `done` is set (the headless version does nothing). It is not modelled because it has no effect beyond repeated `Draw`.
- The `SortingList` trait is not a Dafny trait. The two classes offer the same operations with the same buffer contracts. The visual medium's `swap` and `set` also take the clock reading and the frames of their render step.
- `async`/`await`: the code runs on one logical thread, so the operations are ordinary methods.
- `Bar::new`'s colour (`hsl_to_rgb`) is float library code. A colour is identified by its hue (`Color.Hsl`). `lastTime` is kept as a field that is set to 0 and never read.

## Findings

| source | as written | input that shows it | evidently intended | confidence | as-written member | corrected member |
|---|---|---|---|---|---|---|
| src/GuiHookVec.rs:181-186 | a tone plays when `get_time() + 0.1 >= lastPlayed`, and `lastPlayed` is set to the play time plus 0.1 (the same test and update at lines 237-242) | previous tone at t = 1.0 s (so `lastPlayed` = 1.1); next swap at 1.01 s: 1.11 >= 1.1, so a tone plays after 0.01 s; in fact the test passes at every later instant, so the throttle never holds a tone back | play only when at least 0.1 s has passed since the previous tone: `get_time() >= lastPlayed` | high, not executed | Pacing.ThrottleAsWrittenNeverWaits | Pacing.ThrottleSpacing |

The rest of the model uses the intended throttle: `Pacing.ShouldPlay` in `GuiVec.Swap` and `GuiVec.Set`.
