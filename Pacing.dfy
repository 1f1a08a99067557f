/** The parts of the visual medium's pacing step that are pure: what the two live text
    fields mean, how a bar's position picks a tone from the sound bank, and when a tone
    may play. */
module Pacing {
  import opened Wrappers

  /** The pacing delay in milliseconds. `Forever` is `f32::MAX`, which no amount of
      accumulated frame time reaches: the step then waits until the Exit button. */
  datatype Delay = Millis(ms: real) | Forever

  /** What the host reports for one pass of the pacing loop: the two buttons, the parse
      results of the delay and steps-per-frame text fields as they stand in this frame
      (`None` for text that does not parse), and the frame time in milliseconds. */
  datatype UiFrame = UiFrame(
    exitClicked: bool,
    pauseClicked: bool,
    delayText: Option<real>,
    stepsText: Option<int>,
    frameMillis: real)

  /** Steps per frame: the parsed number, or 1 when the text does not parse. */
  function EffectiveSteps(parsed: Option<int>): (steps: int)
    ensures parsed.None? ==> steps == 1
    ensures parsed.Some? ==> steps == parsed.value
  {
    match parsed
    case Some(a) => a
    case None => 1
  }

  /** The delay after a rendered frame: forever while paused, whatever the text says;
      forever for text that does not parse; otherwise the parsed number. */
  function EffectiveDelay(paused: bool, parsed: Option<real>): (d: Delay)
    ensures d.Forever? <==> paused || parsed.None?
    ensures d.Millis? ==> !paused && parsed == Some(d.ms)
  {
    match (parsed, paused)
    case (_, true) => Forever
    case (Some(a), false) => Millis(a)
    case (None, _) => Forever
  }

  /** Whether the accumulated frame time has reached the delay. */
  function Reached(elapsed: real, d: Delay): (r: bool)
    ensures d.Forever? ==> !r
  {
    d.Millis? && elapsed >= d.ms
  }

  /** Once reached, the delay stays reached as more frame time accumulates. */
  lemma ReachedStays(elapsed: real, later: real, d: Delay)
    requires Reached(elapsed, d) && elapsed <= later
    ensures Reached(later, d)
  {
  }

  /** A pre-rendered tone of the given frequency, 0.1 s long (`generateTone`). */
  datatype Sound = Tone(frequency: nat)

  /** The sound bank holds one tone per even frequency from 50 to 2050 Hz. */
  const ToneCount: nat := 1001

  function ToneFrequency(k: nat): nat
  {
    50 + 2 * k
  }

  /** Builds the sound bank: the loop `for i in (50..2051).step_by(2)`. */
  method GenerateSounds() returns (bank: seq<Sound>)
    ensures |bank| == ToneCount
    ensures forall k :: 0 <= k < |bank| ==> bank[k] == Tone(ToneFrequency(k))
    ensures bank[0].frequency == 50 && bank[ToneCount - 1].frequency == 2050
  {
    bank := [];
    var f := 50;
    while f < 2051
      invariant f == 50 + 2 * |bank| && f <= 2052
      invariant forall k :: 0 <= k < |bank| ==> bank[k] == Tone(ToneFrequency(k))
    {
      bank := bank + [Tone(f)];
      f := f + 2;
    }
  }

  /** The tone played for a bar: its position scaled onto 0..1000 (unsigned integer
      division, as `position * 1000 / len`). */
  function ToneIndex(position: nat, len: nat): nat
    requires len > 0
  {
    position * 1000 / len
  }

  /** The tone index is the floor of `position * 1000 / len`: the largest k with
      `k * len` not above `position * 1000`. */
  lemma ToneIndexFloor(position: nat, len: nat)
    requires len > 0
    ensures ToneIndex(position, len) * len <= position * 1000 < (ToneIndex(position, len) + 1) * len
  {
    var a, k := position * 1000, ToneIndex(position, len);
    assert a == k * len + a % len;
  }

  /** Every position up to the buffer length picks a tone inside the bank, and the
      tallest bar picks the highest tone. */
  lemma ToneIndexInBank(position: nat, len: nat)
    requires 0 < len && position <= len
    ensures ToneIndex(position, len) < ToneCount
    ensures position == len ==> ToneIndex(position, len) == ToneCount - 1
  {
    MulMonotone(1000, position, len);
    DivMonotone(position * 1000, len * 1000, len);
    MulDivCancel(1000, len);
  }

  /** A taller bar never sounds lower than a shorter one. */
  lemma ToneIndexMonotone(p: nat, q: nat, len: nat)
    requires 0 < len && p <= q
    ensures ToneIndex(p, len) <= ToneIndex(q, len)
  {
    MulMonotone(1000, p, q);
    DivMonotone(p * 1000, q * 1000, len);
  }

  lemma DivMonotone(a: nat, b: nat, d: nat)
    requires 0 < d && a <= b
    ensures a / d <= b / d
  {
    var qa: nat, qb: nat := a / d, b / d;
    var qbNext: nat := qb + 1;
    if qb < qa {
      MulMonotone(d, qbNext, qa);
      assert false;
    }
  }

  lemma {:induction false} MulMonotone(d: nat, x: nat, y: nat)
    requires x <= y
    ensures d * x <= d * y
    decreases y - x
  {
    if x < y {
      MulMonotone(d, x, y - 1);
    }
  }

  lemma MulDivCancel(k: nat, d: nat)
    requires 0 < d
    ensures d * k / d == k
  {
    var q: nat := d * k / d;
    var qNext: nat, kNext: nat := q + 1, k + 1;
    if q < k {
      MulMonotone(d, qNext, k);
      assert false;
    } else if k < q {
      MulMonotone(d, kNext, q);
      assert false;
    }
  }

  /** Seconds between two tones the medium aims for. */
  const ThrottleWindow: real := 0.1

  /** The audio throttle as the source writes it: play when `now + 0.1 >= lastPlayed`,
      where `lastPlayed` holds the time of the previous tone plus 0.1. */
  function ShouldPlayAsWritten(now: real, lastPlayed: real): (play: bool)
    ensures ShouldPlay(now, lastPlayed) ==> play
  {
    now + ThrottleWindow >= lastPlayed
  }

  /** With the previous tone at time `t`, the written test passes at every later instant,
      so it never holds a tone back. At t = 1.0 and now = 1.01 it lets a second tone
      through after 0.01 s. */
  lemma ThrottleAsWrittenNeverWaits(t: real, now: real)
    requires t <= now
    ensures ShouldPlayAsWritten(now, t + ThrottleWindow)
    ensures ShouldPlayAsWritten(1.01, 1.0 + ThrottleWindow) && 1.01 - 1.0 < ThrottleWindow
  {
  }

  /** The throttle as intended: `lastPlayed` is the earliest time the next tone may play. */
  predicate ShouldPlay(now: real, lastPlayed: real)
  {
    now >= lastPlayed
  }

  /** With the previous tone at time `t`, the intended test plays exactly when at least
      the throttle window has passed. */
  lemma ThrottleSpacing(t: real, now: real)
    ensures ShouldPlay(now, t + ThrottleWindow) <==> now - t >= ThrottleWindow
  {
  }
}
