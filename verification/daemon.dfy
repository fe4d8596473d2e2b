/** The rotation daemon end to end: the requests of the polling loop applied, in order,
    to the display driving the daemon's monitor, each rotation followed by the
    write-back. Each rotation starts from the previous one's rotated layout. */
module Daemon {
  import opened Wrappers
  import opened Classifier
  import opened Layout
  import opened Rotation
  import opened RotationProperties
  import opened Bridge
  import opened Config

  /** The connector of the built-in panel the daemon rotates. */
  const MONITOR: string := "eDP-1"

  /** Applies the requested rotations one after another, the last one last. Each step
      is a rotation followed by the write-back, which fails when some monitor of the
      rotated layout has no current mode. The first failure ends the run: the loop does
      not catch it. A run that succeeds keeps every display's monitor list, and after at
      least one request every monitor has a current mode. */
  function ApplyAll(displays: seq<LogicalDisplay>, connector: string, requests: seq<string>)
    : (r: Result<seq<LogicalDisplay>, Error>)
    ensures r.Success? ==> SameMonitors(displays, r.value)
    ensures r.Success? && |requests| > 0 ==> AllHaveModes(r.value)
    decreases |requests|
  {
    if |requests| == 0 then Success(displays)
    else
      match ApplyAll(displays, connector, requests[..|requests| - 1])
      case Failure(e) => Failure(e)
      case Success(before) =>
        var after := ApplyRotation(before, connector, requests[|requests| - 1]);
        if after.Success? then
          RotationKeepsTarget(before, connector, requests[|requests| - 1]);
          match MarshalDisplays(after.value, 1.0)
          case Failure(e) => Failure(e)
          case Success(_) => after
        else after
  }

  /** Each later step of a run is the whole `set_rotation` step on the layout so far:
      appending a request succeeds exactly when rotating and writing back that layout
      succeeds. */
  lemma NextStepIsSetRotation(serial: nat, displays: seq<LogicalDisplay>, connector: string,
                              requests: seq<string>, request: string, scale: real)
    requires ApplyAll(displays, connector, requests).Success?
    ensures ApplyAll(displays, connector, requests + [request]).Success?
        <==> SetRotation(Snapshot(serial, ApplyAll(displays, connector, requests).value),
                         connector, request, scale).Success?
  {
    assert (requests + [request])[..|requests|] == requests;
  }

  /** A run succeeds whenever the panel is present, every monitor has a current mode and
      every request names a rotation: rotations keep the monitors, so neither the target
      search nor the write-back can fail later on. */
  lemma {:induction false} ApplyAllSucceeds(displays: seq<LogicalDisplay>, connector: string, requests: seq<string>)
    requires AllHaveModes(displays) && FindTarget(displays, connector).Some?
    requires forall k :: 0 <= k < |requests| ==> RotationCode(requests[k]).Success?
    ensures ApplyAll(displays, connector, requests).Success?
  {
    if |requests| > 0 {
      var n := |requests| - 1;
      var prefix := requests[..n];
      assert forall k :: 0 <= k < n ==> prefix[k] == requests[k];
      ApplyAllSucceeds(displays, connector, prefix);
      var before := ApplyAll(displays, connector, prefix).value;
      var request := requests[n];
      assert RotationCode(request).Success?;
      StepSucceeds(displays, before, connector, request);
      var after := ApplyRotation(before, connector, request).value;
      assert MarshalDisplays(after, 1.0).Success?;
      assert ApplyAll(displays, connector, requests) == Success(after);
    }
  }

  /** A layout with the monitors of a fully moded layout driving the panel rotates, and
      the rotated layout still has those monitors and writes back. */
  lemma StepSucceeds(displays: seq<LogicalDisplay>, before: seq<LogicalDisplay>, connector: string, request: string)
    requires AllHaveModes(displays) && FindTarget(displays, connector).Some?
    requires SameMonitors(displays, before) && RotationCode(request).Success?
    ensures ApplyRotation(before, connector, request).Success?
    ensures SameMonitors(displays, ApplyRotation(before, connector, request).value)
    ensures MarshalDisplays(ApplyRotation(before, connector, request).value, 1.0).Success?
  {
    SameMonitorsSameTarget(displays, before, connector);
    var t := FindTarget(displays, connector).value;
    assert before[t.display].monitors == displays[t.display].monitors;
    assert HasCurrentMode(before[t.display].monitors[t.monitor]);
    RotationKeepsTarget(before, connector, request);
    assert AllHaveModes(ApplyRotation(before, connector, request).value);
  }

  /** One step of the run succeeds exactly when the whole `set_rotation` step, rotation
      and write-back, succeeds on the same layout. */
  lemma OneStepIsSetRotation(serial: nat, displays: seq<LogicalDisplay>, connector: string,
                             rotation: string, scale: real)
    ensures ApplyAll(displays, connector, [rotation]).Success?
        <==> SetRotation(Snapshot(serial, displays), connector, rotation, scale).Success?
  {
    assert [rotation][..0] == [];
  }

  /** A monitor without modes on another display ends the run at the write-back, even
      though the panel itself rotates. */
  lemma WriteBackFailureExample()
    ensures
      var mode := Mode("1920x1080@60", 1920, 1080, 60.0, 1.0, [1.0]);
      var a := LogicalDisplay(0, 0, 1.0, 0, true, [Monitor("eDP-1", "v", "p", "s", Some([mode]))]);
      var b := LogicalDisplay(1920, 0, 1.0, 0, false, [Monitor("HDMI-1", "v", "p", "s", None)]);
      && ApplyRotation([a, b], "eDP-1", "left").Success?
      && ApplyAll([a, b], "eDP-1", ["left"]) == Failure(MissingModes("HDMI-1"))
  {
    var mode := Mode("1920x1080@60", 1920, 1080, 60.0, 1.0, [1.0]);
    var a := LogicalDisplay(0, 0, 1.0, 0, true, [Monitor("eDP-1", "v", "p", "s", Some([mode]))]);
    var b := LogicalDisplay(1920, 0, 1.0, 0, false, [Monitor("HDMI-1", "v", "p", "s", None)]);
    assert FindTarget([a, b], "eDP-1") == Some(Target(0, 0));
    var rotated := ApplyRotation([a, b], "eDP-1", "left");
    assert rotated.Success?;
    assert ["left"][..0] == [];
    var r := rotated.value;
    assert ApplyAll([a, b], "eDP-1", []) == Success([a, b]);
    assert r[0].monitors == a.monitors && r[1].monitors == b.monitors;
    assert MarshalDisplay(r[0], 1.0).Success?;
    assert MarshalDisplay(r[1], 1.0) == Failure(MissingModes("HDMI-1"));
    assert r[1..][1..] == [];
    assert MarshalDisplays(r[1..], 1.0) == Failure(MissingModes("HDMI-1"));
    assert MarshalDisplays(r, 1.0) == Failure(MissingModes("HDMI-1"));
  }

  /** The transform of the display driving the connector, if some display drives it. */
  function TargetTransform(displays: seq<LogicalDisplay>, connector: string): Option<nat> {
    match FindTarget(displays, connector)
    case None => None
    case Some(t) => Some(displays[t.display].transform)
  }

  /** After a successful rotation the target carries the requested transform. */
  lemma RotatedTargetTransform(displays: seq<LogicalDisplay>, connector: string, rotation: string)
    requires ApplyRotation(displays, connector, rotation).Success?
    ensures RotationCode(rotation).Success?
    ensures TargetTransform(ApplyRotation(displays, connector, rotation).value, connector)
         == Some(RotationCode(rotation).value)
  {
    RotationKeepsTarget(displays, connector, rotation);
  }

  /** After a successful run with at least one request, the target display carries the
      transform of the last request, whatever the earlier ones were. */
  lemma ApplyAllEndsInLastRequest(displays: seq<LogicalDisplay>, connector: string, requests: seq<string>)
    requires |requests| > 0
    requires ApplyAll(displays, connector, requests).Success?
    ensures var last := RotationCode(requests[|requests| - 1]);
      && last.Success?
      && TargetTransform(ApplyAll(displays, connector, requests).value, connector) == Some(last.value)
  {
    var before := ApplyAll(displays, connector, requests[..|requests| - 1]);
    RotatedTargetTransform(before.value, connector, requests[|requests| - 1]);
  }

  /** The daemon over a stream of readings, from no held orientation. */
  function RunDaemon(displays: seq<LogicalDisplay>, samples: seq<AxisSample>): (r: Result<seq<LogicalDisplay>, Error>)
    ensures r.Success? ==> SameMonitors(displays, r.value)
    ensures |Watch(samples).requests| == 0 ==> r == Success(displays)
  {
    ApplyAll(displays, MONITOR, Watch(samples).requests)
  }

  /** The daemon never fails on a layout where the panel is present and every monitor
      has a current mode, whatever the readings: every request it makes is accepted. */
  lemma RunDaemonSucceeds(displays: seq<LogicalDisplay>, samples: seq<AxisSample>)
    requires AllHaveModes(displays) && FindTarget(displays, MONITOR).Some?
    ensures RunDaemon(displays, samples).Success?
  {
    RequestsAreDebounced(Classify(samples, CONFIGURED_AXIS), None);
    ApplyAllSucceeds(displays, MONITOR, Watch(samples).requests);
  }

  /** When the run succeeds and some reading was known, the panel ends in the rotation
      of the orientation held last — the orientation of the last known reading. */
  lemma DaemonFollowsHeldOrientation(displays: seq<LogicalDisplay>, samples: seq<AxisSample>)
    requires RunDaemon(displays, samples).Success?
    requires exists k :: 0 <= k < |samples| && DetermineState(samples[k], CONFIGURED_AXIS).Some?
    ensures var held := Watch(samples).held;
      && held.Some?
      && TargetTransform(RunDaemon(displays, samples).value, MONITOR) == Some(RotationCode(RotationFor(held.value)).value)
  {
    var requests := Watch(samples).requests;
    KnownReadingIsRequested(samples);
    ApplyAllEndsInLastRequest(displays, MONITOR, requests);
  }

  /** Once some reading was known, the loop holds an orientation and its last request
      is that orientation's rotation. */
  lemma KnownReadingIsRequested(samples: seq<AxisSample>)
    requires exists k :: 0 <= k < |samples| && DetermineState(samples[k], CONFIGURED_AXIS).Some?
    ensures var r := Watch(samples);
      && r.held.Some? && |r.requests| > 0
      && r.requests[|r.requests| - 1] == RotationFor(r.held.value)
  {
    var states := Classify(samples, CONFIGURED_AXIS);
    var k :| 0 <= k < |samples| && DetermineState(samples[k], CONFIGURED_AXIS).Some?;
    assert states[k].Some?;
    KnownReadingRequests(states, None, k);
    RequestsAreDebounced(states, None);
  }
}
