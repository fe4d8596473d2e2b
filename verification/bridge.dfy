/** The daemon's polling loop, as a fold over the readings it receives: classify each
    reading, and request a rotation only when the orientation is known and differs from
    the one held; the held orientation then becomes the new one. */
module Bridge {
  import opened Wrappers
  import opened Classifier
  import opened Rotation

  /** The rotation name requested for each orientation. */
  function RotationFor(o: Orientation): string {
    match o
    case Landscape => "normal"
    case LeftRotation => "left"
    case RightRotation => "right"
  }

  /** The held orientation after a run, and the rotations requested, in order. */
  datatype Run = Run(held: Option<Orientation>, requests: seq<string>)

  /** The debouncing fold over classified readings (None for a dead-zone reading). At
      most one request per reading, and once something was requested, the last request
      is the held orientation's rotation. */
  function Debounce(states: seq<Option<Orientation>>, initial: Option<Orientation>): (r: Run)
    ensures |r.requests| <= |states|
    ensures |r.requests| > 0 ==> r.held.Some? && r.requests[|r.requests| - 1] == RotationFor(r.held.value)
  {
    if |states| == 0 then Run(initial, [])
    else
      var before := Debounce(states[..|states| - 1], initial);
      var current := states[|states| - 1];
      if current.Some? && current != before.held then Run(current, before.requests + [RotationFor(current.value)])
      else before
  }

  /** Each reading's orientation on the given axis. */
  function Classify(samples: seq<AxisSample>, axis: Axis): (states: seq<Option<Orientation>>)
    ensures |states| == |samples|
  {
    seq(|samples|, k requires 0 <= k < |samples| => DetermineState(samples[k], axis))
  }

  /** The loop over `samples`, starting from the held orientation `initial`. */
  function Transitions(samples: seq<AxisSample>, axis: Axis, initial: Option<Orientation>): Run {
    Debounce(Classify(samples, axis), initial)
  }

  /** The daemon starts with no orientation held and reads the configured axis. It
      holds an orientation exactly when some reading was outside the dead zone, and then
      its last request is that orientation's rotation. */
  function Watch(samples: seq<AxisSample>): (r: Run)
    ensures r.held.None? <==> forall k :: 0 <= k < |samples| ==> DetermineState(samples[k], CONFIGURED_AXIS).None?
    ensures |r.requests| > 0 ==> r.held.Some? && r.requests[|r.requests| - 1] == RotationFor(r.held.value)
  {
    var states := Classify(samples, CONFIGURED_AXIS);
    assert forall k :: 0 <= k < |samples| ==> states[k] == DetermineState(samples[k], CONFIGURED_AXIS);
    HeldIffSomeKnown(states);
    Debounce(states, None)
  }

  /** From no held orientation, the loop holds one exactly when some reading was known. */
  lemma HeldIffSomeKnown(states: seq<Option<Orientation>>)
    ensures Debounce(states, None).held.None? <==> forall k :: 0 <= k < |states| ==> states[k].None?
  {
    if k :| 0 <= k < |states| && states[k].Some? {
      KnownReadingHeld(states, None, k);
    } else {
      HeldIsLastKnown(states, None);
    }
  }

  /** A known reading, from no held orientation, leaves some orientation held. */
  lemma {:induction false} KnownReadingHeld(states: seq<Option<Orientation>>, initial: Option<Orientation>, k: nat)
    requires initial.None? && k < |states| && states[k].Some?
    ensures Debounce(states, initial).held.Some?
  {
    var n := |states| - 1;
    if k < n {
      assert states[..n][k] == states[k];
      KnownReadingHeld(states[..n], initial, k);
    }
  }

  /** Every request is a rotation name the engine accepts, and none repeats the one
      before it; after a request, the held orientation is the one last requested. */
  lemma {:induction false} RequestsAreDebounced(states: seq<Option<Orientation>>, initial: Option<Orientation>)
    ensures var r := Debounce(states, initial);
      && (forall k :: 0 <= k < |r.requests| ==> RotationCode(r.requests[k]).Success?)
      && (forall k :: 0 <= k < |r.requests| - 1 ==> r.requests[k] != r.requests[k + 1])
      && (|r.requests| > 0 ==> r.held.Some? && r.requests[|r.requests| - 1] == RotationFor(r.held.value))
  {
    if |states| > 0 {
      var prefix := states[..|states| - 1];
      RequestsAreDebounced(prefix, initial);
      var before := Debounce(prefix, initial);
      var current := states[|states| - 1];
      if current.Some? && current != before.held {
        var requests := before.requests + [RotationFor(current.value)];
        assert Debounce(states, initial).requests == requests;
        assert forall k :: 0 <= k < |before.requests| ==> requests[k] == before.requests[k];
        RotationForAccepted(current.value);
        if |before.requests| > 0 {
          RotationForDistinct(current.value, before.held.value);
        }
      } else {
        assert Debounce(states, initial) == before;
      }
    }
  }

  /** Every orientation's rotation name is one the engine accepts. */
  lemma RotationForAccepted(o: Orientation)
    ensures RotationCode(RotationFor(o)).Success?
  {
  }

  /** Different orientations request different rotations. */
  lemma RotationForDistinct(a: Orientation, b: Orientation)
    requires a != b
    ensures RotationFor(a) != RotationFor(b)
  {
  }

  /** The held orientation is that of the last known reading, or the initial one when
      no reading was known. */
  lemma {:induction false} HeldIsLastKnown(states: seq<Option<Orientation>>, initial: Option<Orientation>)
    ensures var r := Debounce(states, initial);
      && ((forall k :: 0 <= k < |states| ==> states[k].None?) ==> r.held == initial)
      && (forall k :: 0 <= k < |states| && states[k].Some?
            && (forall k' :: k < k' < |states| ==> states[k'].None?)
            ==> r.held == states[k])
  {
    if forall k :: 0 <= k < |states| ==> states[k].None? {
      QuietSuffix(states, initial, 0);
      assert states[..0] == [];
    }
    forall k | 0 <= k < |states| && states[k].Some? && (forall k' :: k < k' < |states| ==> states[k'].None?)
      ensures Debounce(states, initial).held == states[k]
    {
      LastKnownIsHeld(states, initial, k);
    }
  }

  /** A known reading followed only by dead-zone readings is the one held. */
  lemma LastKnownIsHeld(states: seq<Option<Orientation>>, initial: Option<Orientation>, k: nat)
    requires k < |states| && states[k].Some?
    requires forall k' :: k < k' < |states| ==> states[k'].None?
    ensures Debounce(states, initial).held == states[k]
  {
    QuietSuffix(states, initial, k + 1);
    assert states[..k + 1][k] == states[k];
  }

  /** Dead-zone readings after position `m` change nothing. */
  lemma {:induction false} QuietSuffix(states: seq<Option<Orientation>>, initial: Option<Orientation>, m: nat)
    requires m <= |states| && forall k :: m <= k < |states| ==> states[k].None?
    ensures Debounce(states, initial) == Debounce(states[..m], initial)
  {
    if m < |states| {
      var n := |states| - 1;
      assert states[..n][..m] == states[..m];
      assert forall k :: m <= k < n ==> states[..n][k] == states[k];
      QuietSuffix(states[..n], initial, m);
      assert states[n].None?;
    } else {
      assert states[..m] == states;
    }
  }

  lemma ClassifyAppend(samples: seq<AxisSample>, sample: AxisSample, axis: Axis)
    ensures Classify(samples + [sample], axis) == Classify(samples, axis) + [DetermineState(sample, axis)]
  {
  }

  /** A reading in the dead zone, or one agreeing with the held orientation, requests
      nothing and changes nothing — so repeated readings trigger at most one rotation. */
  lemma QuietReading(samples: seq<AxisSample>, sample: AxisSample, axis: Axis, initial: Option<Orientation>)
    requires var current := DetermineState(sample, axis);
      current.None? || current == Transitions(samples, axis, initial).held
    ensures Transitions(samples + [sample], axis, initial) == Transitions(samples, axis, initial)
  {
    ClassifyAppend(samples, sample, axis);
    var states := Classify(samples, axis);
    assert (states + [DetermineState(sample, axis)])[..|states|] == states;
  }

  /** A reading of a known orientation other than the held one requests exactly its
      rotation and is held from then on. */
  lemma ChangedReading(samples: seq<AxisSample>, sample: AxisSample, axis: Axis, initial: Option<Orientation>)
    requires var current := DetermineState(sample, axis);
      current.Some? && current != Transitions(samples, axis, initial).held
    ensures var before, after := Transitions(samples, axis, initial), Transitions(samples + [sample], axis, initial);
      && after.requests == before.requests + [RotationFor(DetermineState(sample, axis).value)]
      && after.held == DetermineState(sample, axis)
  {
    ClassifyAppend(samples, sample, axis);
    var states := Classify(samples, axis);
    assert (states + [DetermineState(sample, axis)])[..|states|] == states;
  }

  /** The reading stream level, level, tilted left twice, level again (on the configured
      axis) requests normal, left and normal: one rotation per change, none for the
      repeated readings. */
  lemma LevelLeftLevelExample()
    ensures var level, tilted := AxisSample(0.0, 0.0, 0.0), AxisSample(0.0, 950.0, 0.0);
      Watch([level, level, tilted, tilted, level]).requests == ["normal", "left", "normal"]
  {
    var level, tilted := AxisSample(0.0, 0.0, 0.0), AxisSample(0.0, 950.0, 0.0);
    var L, T := Some(Landscape), Some(LeftRotation);
    assert DetermineState(level, CONFIGURED_AXIS) == L;
    assert DetermineState(tilted, CONFIGURED_AXIS) == T;
    var states := Classify([level, level, tilted, tilted, level], CONFIGURED_AXIS);
    assert states == [L, L, T, T, L];
    LevelLeftLevelDebounce();
  }

  /** The debouncing half of the example above, on the classified readings. */
  lemma LevelLeftLevelDebounce()
    ensures var L, T := Some(Landscape), Some(LeftRotation);
      Debounce([L, L, T, T, L], None) == Run(L, ["normal", "left", "normal"])
  {
    var L, T := Some(Landscape), Some(LeftRotation);
    var states := [L, L, T, T, L];
    assert states[..4] == [L, L, T, T];
    assert states[..4][..3] == [L, L, T];
    assert states[..4][..3][..2] == [L, L];
    assert states[..4][..3][..2][..1] == [L];
    assert states[..4][..3][..2][..1][..0] == [];
    assert Debounce([L], None) == Run(L, ["normal"]);
    assert Debounce([L, L], None) == Run(L, ["normal"]);
    assert Debounce([L, L, T], None) == Run(T, ["normal", "left"]);
    assert Debounce([L, L, T, T], None) == Run(T, ["normal", "left"]);
  }

  /** From no held orientation, any known reading makes the loop request something. */
  lemma {:induction false} KnownReadingRequests(states: seq<Option<Orientation>>, initial: Option<Orientation>, k: nat)
    requires initial.None? && k < |states| && states[k].Some?
    ensures |Debounce(states, initial).requests| > 0
  {
    var n := |states| - 1;
    if k < n {
      assert states[..n][k] == states[k];
      KnownReadingRequests(states[..n], initial, k);
    } else {
      var before := Debounce(states[..n], initial);
      if |before.requests| == 0 {
        HeldWithoutRequests(states[..n], initial);
      }
    }
  }

  /** With no requests made, the held orientation is still the initial one. */
  lemma {:induction false} HeldWithoutRequests(states: seq<Option<Orientation>>, initial: Option<Orientation>)
    requires |Debounce(states, initial).requests| == 0
    ensures Debounce(states, initial).held == initial
  {
    if |states| > 0 {
      HeldWithoutRequests(states[..|states| - 1], initial);
    }
  }
}
