/** The two sorting media of the visualiser. Both offer the same operations with the
    same effect on the buffer of bars; `GuiVec` also counts reads, writes and
    comparisons, remembers which cells it touched last, paces itself with a render
    step after every swap and set, and picks a tone for the touched bar. `NonGuiVec`
    only mutates the buffer and never asks to stop. */
module GuiHookVec {
  import opened Wrappers
  import opened BarPlugin
  import opened SortingList
  import opened Pacing

  /** The hue the visual medium gives bar `i` of `length`: `(360 / length * i) / 360`. */
  function GuiHue(i: nat, length: nat): real
    requires length > 0
  {
    (i as real) / (length as real)
  }

  /** The hues spread bar by bar over the colour circle: hue times length gives back the
      rank, every bar up to `length` lies in [0, 1], and the last bar closes the circle. */
  lemma GuiHueSpread(i: nat, length: nat)
    requires length > 0
    ensures GuiHue(i, length) * (length as real) == i as real
    ensures i <= length ==> 0.0 <= GuiHue(i, length) <= 1.0
    ensures i == length ==> GuiHue(i, length) == 1.0
  {
    var l := length as real;
    if i <= length {
      HueAtMostOne(i as real, l);
    }
  }

  /** For 0 <= x <= l with l positive, x / l lies in [0, 1] and is 1 exactly at x == l. */
  lemma HueAtMostOne(x: real, l: real)
    requires 0.0 <= x <= l && 0.0 < l
    ensures 0.0 <= x / l <= 1.0
    ensures x == l ==> x / l == 1.0
  {
    assert 1.0 * l == l;
    assert l / l == 1.0;
    assert x / l <= l / l;
  }

  /** In a buffer whose positions stay within its length, every bar picks a tone that
      exists in the sound bank, so the tone lookups of `swap` and `set` never fall
      outside it. */
  lemma BoundedPicksToneInBank(s: seq<Bar>)
    requires PositionsBounded(s)
    ensures forall k :: 0 <= k < |s| ==> ToneIndex(s[k].position, |s|) < ToneCount
  {
    forall k | 0 <= k < |s| ensures ToneIndex(s[k].position, |s|) < ToneCount {
      ToneIndexInBank(s[k].position, |s|);
    }
  }

  class GuiVec {
    var list: seq<Bar>
    const initialSize: nat
    var lastTime: real
    var readCount: int
    var writeCount: int
    var compCount: int
    var isPaused: bool
    var delay: Delay
    var done: bool
    var renderSkip: int
    var skipped: int
    var lastTouched: seq<nat>
    var lastPlayed: real
    const sounds: seq<Sound>

    /** The sound bank is the full bank of tones, a paused medium waits forever, and the
        highlighted cells are at most two cells of the buffer. */
    ghost predicate Valid()
      reads this
    {
      |sounds| == ToneCount
      && (forall k :: 0 <= k < |sounds| ==> sounds[k] == Tone(ToneFrequency(k)))
      && (isPaused ==> delay == Forever)
      && |lastTouched| <= 2
      && (forall t :: t in lastTouched ==> t < |list|)
    }

    /** `new(length, delay)`: bars with positions 1..length in order, each coloured by
        its rank, the whole sound bank, zeroed counters, running and drawing every step. */
    constructor (length: nat, delay: real)
      ensures Valid()
      ensures |list| == length
      ensures forall k :: 0 <= k < length ==> list[k].position == k + 1
      ensures forall k :: 0 <= k < length ==> list[k].color == Hsl(GuiHue(k + 1, length))
      ensures Sorted(list) && PositionsBounded(list)
      ensures readCount == 0 && writeCount == 0 && compCount == 0
      ensures !done && !isPaused && this.delay == Millis(delay)
      ensures renderSkip == 1 && skipped == 0
      ensures lastTouched == [] && lastPlayed == 0.0 && lastTime == 0.0
      ensures initialSize == length
    {
      var bars: seq<Bar> := [];
      var i := 1;
      while i < length + 1
        invariant 1 <= i <= length + 1
        invariant |bars| == i - 1
        invariant forall k :: 0 <= k < |bars| ==> bars[k] == NewBar(k + 1, GuiHue(k + 1, length))
      {
        bars := bars + [NewBar(i, GuiHue(i, length))];
        i := i + 1;
      }
      var bank := GenerateSounds();
      list := bars;
      initialSize := length;
      lastTime := 0.0;
      readCount, writeCount, compCount := 0, 0, 0;
      isPaused := false;
      this.delay := Millis(delay);
      done := false;
      renderSkip := 1;
      skipped := 0;
      lastTouched := [];
      lastPlayed := 0.0;
      sounds := bank;
    }

    function Len(): (n: nat)
      reads this
      ensures n == |list|
    {
      |list|
    }

    /** The controls of a rendered frame that did not exit: Pause toggles, the two text
        fields give the steps per frame and the delay with their fallbacks, and the
        skipped-step counter restarts. */
    method ReadControls(input: UiFrame)
      requires Valid()
      modifies this`isPaused, this`renderSkip, this`delay, this`skipped
      ensures Valid()
      ensures isPaused == (old(isPaused) != input.pauseClicked)
      ensures renderSkip == EffectiveSteps(input.stepsText)
      ensures delay == EffectiveDelay(isPaused, input.delayText)
      ensures skipped == 0
    {
      if input.pauseClicked {
        isPaused := !isPaused;
      }
      renderSkip := EffectiveSteps(input.stepsText);
      delay := EffectiveDelay(isPaused, input.delayText);
      skipped := 0;
    }

    /** One pacing step. Each pass of the loop consumes one frame of `ui`: when enough
        steps were skipped it renders (Exit sets `done` and returns at once; Pause
        toggles; the two text fields set the steps per frame and the delay, with their
        fallbacks), otherwise it counts one more skipped step; it returns once the
        accumulated frame time reaches the delay, unless `done` is set. `used` is the
        number of frames consumed. Only the pacing fields change: never the buffer, the
        counters or the highlighted cells. */
    method Draw(ui: seq<UiFrame>) returns (returned: bool, used: nat)
      requires Valid()
      modifies this`done, this`isPaused, this`renderSkip, this`delay, this`skipped
      ensures Valid()
      ensures used <= |ui|
      ensures old(done) ==> done
      ensures !returned ==> done == old(done) && used == |ui|
      ensures returned && done ==> 0 < used && ui[used - 1].exitClicked
      ensures returned && !done ==> !isPaused && delay.Millis?
      ensures old(skipped) >= old(renderSkip) && 0 < |ui| && ui[0].exitClicked ==> returned && done && used == 1
      ensures !old(done) && done ==> exists k :: 0 <= k < |ui| && ui[k].exitClicked
    {
      var frames: real := 0.0;
      returned := false;
      used := 0;
      while used < |ui|
        invariant used <= |ui|
        invariant Valid()
        invariant done == old(done)
        invariant used == 0 ==> skipped == old(skipped) && renderSkip == old(renderSkip)
        invariant 0 < used ==> !(old(skipped) >= old(renderSkip) && ui[0].exitClicked)
      {
        var input := ui[used];
        used := used + 1;
        if skipped >= renderSkip {
          if input.exitClicked {
            done := true;
            returned := true;
            return;
          }
          ReadControls(input);
        } else {
          skipped := skipped + 1;
        }
        if Reached(frames, delay) && !done {
          returned := true;
          return;
        }
        frames := frames + input.frameMillis;
      }
    }

    /** `swap(index1, index2)`: two reads and two writes, the two cells exchanged, a tone
        for the bar now at `index1` (its index must lie in the bank) when the throttle
        allows one (read from the clock at
        `now`), both cells highlighted, one pacing step, and the `done` flag returned together with
        whether that step finished before its frames ran out. */
    method Swap(index1: nat, index2: nat, now: real, ui: seq<UiFrame>) returns (stop: bool, finished: bool)
      requires Valid()
      requires index1 < |list| && index2 < |list|
      requires ToneIndex(list[index2].position, |list|) < ToneCount
      modifies this
      ensures Valid()
      ensures list == Swapped(old(list), index1, index2)
      ensures multiset(list) == multiset(old(list))
      ensures readCount == old(readCount) + 2 && writeCount == old(writeCount) + 2 && compCount == old(compCount)
      ensures lastTouched == [index1, index2]
      ensures lastPlayed == if ShouldPlay(now, old(lastPlayed)) then now + ThrottleWindow else old(lastPlayed)
      ensures stop == done && (old(done) ==> stop)
      ensures !old(done) && (forall k :: 0 <= k < |ui| ==> !ui[k].exitClicked) ==> !stop
      ensures old(skipped) >= old(renderSkip) && 0 < |ui| && ui[0].exitClicked ==> stop
      ensures finished && old(done) ==> exists k :: 0 <= k < |ui| && ui[k].exitClicked
      ensures finished && !stop ==> !isPaused && delay.Millis?
      ensures !finished ==> stop == old(done)
      ensures lastTime == old(lastTime)
    {
      writeCount := writeCount + 2;
      readCount := readCount + 2;
      SwappedPermutes(list, index1, index2);
      list := Swapped(list, index1, index2);
      if ShouldPlay(now, lastPlayed) {
        var tone := sounds[ToneIndex(list[index1].position, |list|)];
        lastPlayed := now + ThrottleWindow;
      }
      lastTouched := [index1, index2];
      var used;
      finished, used := Draw(ui);
      stop := done;
    }

    /** `randomize`: shuffles the buffer in place; counters and pacing are untouched. */
    method Randomize(draws: seq<nat>)
      requires Valid() && |draws| == |list|
      modifies this`list
      ensures Valid()
      ensures |list| == |old(list)| && multiset(list) == multiset(old(list))
    {
      list := Shuffle(list, draws);
    }

    /** `get(i)`: one read, cell `i` highlighted alone. */
    method Get(i: nat) returns (bar: Bar)
      requires Valid() && i < |list|
      modifies this`readCount, this`lastTouched
      ensures Valid()
      ensures bar == list[i]
      ensures readCount == old(readCount) + 1 && lastTouched == [i]
    {
      readCount := readCount + 1;
      lastTouched := [i];
      bar := list[i];
    }

    /** `lessThan(a, b)`: one comparison and two reads (through `get`), `b` highlighted
        last; true iff the bar at `a` sorts strictly before the bar at `b`. */
    method LessThan(a: nat, b: nat) returns (less: bool)
      requires Valid() && a < |list| && b < |list|
      modifies this`compCount, this`readCount, this`lastTouched
      ensures Valid()
      ensures less <==> list[a].position < list[b].position
      ensures compCount == old(compCount) + 1 && readCount == old(readCount) + 2 && lastTouched == [b]
    {
      compCount := compCount + 1;
      var x := Get(a);
      var y := Get(b);
      less := x.position < y.position;
    }

    /** `lessThanEqual(a, b)`: one comparison and one read; compares the bar at `a`
        with the raw value `b`, not with another cell. */
    method LessThanEqual(a: nat, b: nat) returns (atMost: bool)
      requires Valid() && a < |list|
      modifies this`compCount, this`readCount, this`lastTouched
      ensures Valid()
      ensures atMost <==> list[a].position <= b
      ensures compCount == old(compCount) + 1 && readCount == old(readCount) + 1 && lastTouched == [a]
    {
      compCount := compCount + 1;
      var x := Get(a);
      atMost := x.position <= b;
    }

    /** `isSorted`: counts one read per bar and scans the buffer. */
    method IsSorted() returns (sorted: bool)
      requires Valid()
      modifies this`readCount
      ensures Valid()
      ensures sorted <==> Sorted(list)
      ensures readCount == old(readCount) + |list|
    {
      readCount := readCount + |list|;
      sorted := ScanSorted(list);
    }

    /** `set(i, elem)`: one read and one write, cell `i` replaced, one pacing step, then
        a tone for `elem` (its index must lie in the bank) when the throttle allows one (read from the clock at `now`),
        cell `i` highlighted, and the `done` flag returned together with whether the step
        finished before its frames ran out. */
    method Set(i: nat, elem: Bar, now: real, ui: seq<UiFrame>) returns (stop: bool, finished: bool)
      requires Valid() && i < |list|
      requires ToneIndex(elem.position, |list|) < ToneCount
      modifies this
      ensures Valid()
      ensures list == Updated(old(list), i, elem)
      ensures readCount == old(readCount) + 1 && writeCount == old(writeCount) + 1 && compCount == old(compCount)
      ensures lastTouched == [i]
      ensures lastPlayed == if ShouldPlay(now, old(lastPlayed)) then now + ThrottleWindow else old(lastPlayed)
      ensures stop == done && (old(done) ==> stop)
      ensures !old(done) && (forall k :: 0 <= k < |ui| ==> !ui[k].exitClicked) ==> !stop
      ensures old(skipped) >= old(renderSkip) && 0 < |ui| && ui[0].exitClicked ==> stop
      ensures finished && old(done) ==> exists k :: 0 <= k < |ui| && ui[k].exitClicked
      ensures finished && !stop ==> !isPaused && delay.Millis?
      ensures !finished ==> stop == old(done)
      ensures lastTime == old(lastTime)
    {
      writeCount := writeCount + 1;
      readCount := readCount + 1;
      list := Updated(list, i, elem);
      assert Valid();
      var used;
      finished, used := Draw(ui);
      assert list[i] == elem;
      if ShouldPlay(now, lastPlayed) {
        var tone := sounds[ToneIndex(list[i].position, |list|)];
        lastPlayed := now + ThrottleWindow;
      }
      lastTouched := [i];
      stop := done;
    }

    /** `getListClone`: an independent copy of the buffer. */
    function GetListClone(): (snapshot: seq<Bar>)
      reads this
      ensures |snapshot| == |list|
      ensures forall k :: 0 <= k < |list| ==> snapshot[k] == list[k]
    {
      list
    }
  }

  class NonGuiVec {
    var list: seq<Bar>

    /** `new(length, _)`: bars with positions 0..length-1 in order; the delay is ignored. */
    constructor (length: nat, delay: real)
      ensures |list| == length
      ensures forall k :: 0 <= k < length ==> list[k] == NewBar(k, k as real)
      ensures Sorted(list)
    {
      var bars: seq<Bar> := [];
      var i := 0;
      while i < length
        invariant 0 <= i <= length
        invariant |bars| == i
        invariant forall k :: 0 <= k < i ==> bars[k] == NewBar(k, k as real)
      {
        bars := bars + [NewBar(i, i as real)];
        i := i + 1;
      }
      list := bars;
    }

    function Len(): (n: nat)
      reads this
      ensures n == |list|
    {
      |list|
    }

    /** `swap`: the two cells exchanged; never asks to stop. */
    method Swap(index1: nat, index2: nat) returns (stop: bool)
      requires index1 < |list| && index2 < |list|
      modifies this`list
      ensures list == Swapped(old(list), index1, index2)
      ensures multiset(list) == multiset(old(list))
      ensures !stop
    {
      SwappedPermutes(list, index1, index2);
      list := Swapped(list, index1, index2);
      stop := false;
    }

    /** `draw` is `swap(0, 0)`: the buffer is unchanged, but an empty buffer is out of
        range. */
    method Draw()
      requires |list| > 0
      modifies this`list
      ensures list == old(list)
    {
      var _ := Swap(0, 0);
    }

    method Randomize(draws: seq<nat>)
      requires |draws| == |list|
      modifies this`list
      ensures |list| == |old(list)| && multiset(list) == multiset(old(list))
    {
      list := Shuffle(list, draws);
    }

    method Get(i: nat) returns (bar: Bar)
      requires i < |list|
      ensures bar == list[i]
    {
      bar := list[i];
    }

    method LessThan(a: nat, b: nat) returns (less: bool)
      requires a < |list| && b < |list|
      ensures less <==> list[a].position < list[b].position
    {
      var x := Get(a);
      var y := Get(b);
      less := x.position < y.position;
    }

    method LessThanEqual(a: nat, b: nat) returns (atMost: bool)
      requires a < |list|
      ensures atMost <==> list[a].position <= b
    {
      var x := Get(a);
      atMost := x.position <= b;
    }

    method IsSorted() returns (sorted: bool)
      ensures sorted <==> Sorted(list)
    {
      sorted := ScanSorted(list);
    }

    /** `set`: cell `i` replaced, then `draw`; never asks to stop. */
    method Set(i: nat, elem: Bar) returns (stop: bool)
      requires i < |list|
      modifies this`list
      ensures list == Updated(old(list), i, elem)
      ensures !stop
    {
      list := Updated(list, i, elem);
      Draw();
      stop := false;
    }

    function GetListClone(): (snapshot: seq<Bar>)
      reads this
      ensures |snapshot| == |list|
      ensures forall k :: 0 <= k < |list| ==> snapshot[k] == list[k]
    {
      list
    }
  }

  /** A fresh visual medium of five bars is sorted; swapping the two ends unsorts it;
      swapping them back gives positions 1..5 again. */
  method FreshGuiScenario(now: real, ui: seq<UiFrame>)
    returns (sortedAtStart: bool, sortedAfterSwap: bool, snapshot: seq<nat>)
    ensures sortedAtStart && !sortedAfterSwap
    ensures snapshot == [1, 2, 3, 4, 5]
  {
    var m := new GuiVec(5, 0.0);
    ghost var initial := m.list;
    assert initial[4].position == 5 && initial[0].position == 1;
    sortedAtStart := m.IsSorted();
    ToneIndexInBank(5, 5);
    var _, _ := m.Swap(0, 4, now, ui);
    assert m.list[0].position == 5 && m.list[4].position == 1;
    sortedAfterSwap := m.IsSorted();
    ToneIndexInBank(1, 5);
    var _, _ := m.Swap(0, 4, now, ui);
    SwapTwiceRestores(initial, 0, 4);
    assert m.list == initial;
    var clone := m.GetListClone();
    assert clone == initial;
    snapshot := Positions(clone);
    RankedPositions(clone);
  }

  /** A buffer of five bars ranked 1..5 in order lists exactly the positions 1..5. */
  lemma RankedPositions(s: seq<Bar>)
    requires |s| == 5 && forall k :: 0 <= k < 5 ==> s[k].position == k + 1
    ensures Positions(s) == [1, 2, 3, 4, 5]
  {
    var p := Positions(s);
    assert p[0] == 1 && p[1] == 2 && p[2] == 3 && p[3] == 4 && p[4] == 5;
  }
}
