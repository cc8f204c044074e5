/**
 * The edge detector of `handle_button` in src/main.c. Buttons are pulled up:
 * a sample of `true` means released, `false` means pressed. Each poll compares
 * the sample with the level remembered from the previous poll, fires a toggle
 * on a released-to-pressed transition only, and then remembers the sample.
 */
module Debounce {
  /** Whether one poll fires a toggle: the button was released and is now pressed. */
  predicate Fires(last: bool, sample: bool): (f: bool)
    ensures f <==> sample != last && !sample
  {
    last && !sample
  }

  /** Number of toggles fired by polling `samples` in order, starting from remembered level `last`. */
  function Toggles(last: bool, samples: seq<bool>): nat
    decreases |samples|
  {
    if samples == [] then 0
    else (if Fires(last, samples[0]) then 1 else 0) + Toggles(samples[0], samples[1..])
  }

  /** The remembered level after polling `samples`. */
  function TrackerAfter(last: bool, samples: seq<bool>): bool
    decreases |samples|
  {
    if samples == [] then last else TrackerAfter(samples[0], samples[1..])
  }

  /** The LED level after polling `samples`, starting from LED level `level`. */
  function LevelAfter(level: bool, last: bool, samples: seq<bool>): bool
    decreases |samples|
  {
    if samples == [] then level
    else LevelAfter(if Fires(last, samples[0]) then !level else level, samples[0], samples[1..])
  }

  /**
   * Reference count: the falling edges (a `true` immediately followed by a
   * `false`) in a sequence of levels, counted from its end.
   */
  function FallingEdges(levels: seq<bool>): nat
    decreases |levels|
  {
    if |levels| < 2 then 0
    else FallingEdges(levels[..|levels| - 1])
         + (if levels[|levels| - 2] && !levels[|levels| - 1] then 1 else 0)
  }

  lemma {:induction false} FallingEdgesCons(a: bool, t: seq<bool>)
    requires |t| >= 1
    ensures FallingEdges([a] + t) == (if a && !t[0] then 1 else 0) + FallingEdges(t)
    decreases |t|
  {
    var s := [a] + t;
    if |t| > 1 {
      var front := t[..|t| - 1];
      assert s[..|s| - 1] == [a] + front;
      FallingEdgesCons(a, front);
    } else {
      assert s[..|s| - 1] == [a];
    }
  }

  /** The toggles fired are exactly the falling edges of the remembered level followed by the samples. */
  lemma {:induction false} TogglesAreFallingEdges(last: bool, samples: seq<bool>)
    ensures Toggles(last, samples) == FallingEdges([last] + samples)
    decreases |samples|
  {
    if samples != [] {
      TogglesAreFallingEdges(samples[0], samples[1..]);
      assert [samples[0]] + samples[1..] == samples;
      FallingEdgesCons(last, samples);
    }
  }

  /** A single poll flips the LED exactly when it fires, and remembers its sample. */
  lemma PollOnce(level: bool, last: bool, x: bool)
    ensures LevelAfter(level, last, [x]) == if Fires(last, x) then !level else level
    ensures TrackerAfter(last, [x]) == x
  {
    assert [x][1..] == [];
  }

  /**
   * One more poll after a run: the remembered level becomes the new sample, and
   * the LED flips exactly when that poll fires against the level remembered
   * after the run.
   */
  lemma {:induction false} PollAppend(level: bool, last: bool, samples: seq<bool>, x: bool)
    ensures TrackerAfter(last, samples + [x]) == x
    ensures LevelAfter(level, last, samples + [x])
            == if Fires(TrackerAfter(last, samples), x) then !LevelAfter(level, last, samples)
               else LevelAfter(level, last, samples)
    decreases |samples|
  {
    if samples == [] {
      assert samples + [x] == [x];
      assert [x][1..] == [];
    } else {
      var s := samples + [x];
      assert s[0] == samples[0];
      assert s[1..] == samples[1..] + [x];
      PollAppend(if Fires(last, samples[0]) then !level else level, samples[0], samples[1..], x);
    }
  }

  /** The remembered level always ends as the last sample taken. */
  lemma {:induction false} TrackerIsLastSample(last: bool, samples: seq<bool>)
    ensures TrackerAfter(last, samples) == if samples == [] then last else samples[|samples| - 1]
    decreases |samples|
  {
    if samples != [] {
      TrackerIsLastSample(samples[0], samples[1..]);
    }
  }

  /** The LED ends flipped exactly when an odd number of toggles fired. */
  lemma {:induction false} LevelFollowsToggleParity(level: bool, last: bool, samples: seq<bool>)
    ensures LevelAfter(level, last, samples) == (level != (Toggles(last, samples) % 2 == 1))
    decreases |samples|
  {
    if samples != [] {
      LevelFollowsToggleParity(if Fires(last, samples[0]) then !level else level, samples[0], samples[1..]);
    }
  }

  /** Releasing, or keeping the same level, never fires; two consecutive polls never both fire. */
  lemma OnlyPressEdgesFire(last: bool, a: bool, b: bool)
    ensures !Fires(last, true) && !Fires(false, a)
    ensures Fires(last, a) ==> !Fires(a, b)
  {
  }

  /** A toggle needs a release and then a press, so at most every second poll fires. */
  lemma {:induction false} TogglesBound(last: bool, samples: seq<bool>)
    ensures Toggles(last, samples) <= (|samples| + (if last then 1 else 0)) / 2
    decreases |samples|
  {
    if samples != [] {
      TogglesBound(samples[0], samples[1..]);
    }
  }

  /** Samples that are all "pressed" fire nothing once the remembered level is "pressed". */
  lemma {:induction false} HeldPressIsSilent(samples: seq<bool>)
    requires forall i :: 0 <= i < |samples| ==> !samples[i]
    ensures Toggles(false, samples) == 0
    decreases |samples|
  {
    if samples != [] {
      HeldPressIsSilent(samples[1..]);
    }
  }

  /** Holding a button down over many polls fires exactly one toggle. */
  lemma HeldPressFiresOnce(samples: seq<bool>)
    requires |samples| >= 1
    requires forall i :: 0 <= i < |samples| ==> !samples[i]
    ensures Toggles(true, samples) == 1
  {
    HeldPressIsSilent(samples[1..]);
  }

  /** A press-then-release fires once; release, press, release, press held fires twice. */
  lemma SampleRuns()
    ensures Toggles(true, [true, false, false, true]) == 1
    ensures Toggles(true, [true, false, true, false, false]) == 2
  {
  }
}
