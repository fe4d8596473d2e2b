/** Scale selection and the argument the daemon sends back to the display-configuration
    service to apply a layout. The call itself is not modelled; its argument is. */
module Config {
  import opened Wrappers
  import opened Layout
  import opened Rotation

  /** The method code the daemon passes to the apply call. In the desktop's
      display-configuration interface 0 only verifies, 1 applies temporarily and 2
      applies persistently; the daemon always passes 1. */
  const APPLY_METHOD: nat := 1

  /** A monitor entry of the apply call: connector and the id of its current mode.
      The per-monitor options always hold `underscanning`, always off. */
  datatype MonitorArg = MonitorArg(connector: string, modeId: string, underscanning: bool)

  datatype DisplayArg = DisplayArg(x: int, y: int, scale: real, transform: nat, primary: bool,
                                   monitors: seq<MonitorArg>)

  /** The argument of the apply call; its trailing options map is always empty. */
  datatype ApplyRequest = ApplyRequest(serial: nat, layoutMethod: nat, displays: seq<DisplayArg>)

  /** The largest display scale, and never less than 1.0 — the scale the daemon requests
      for every display. */
  function GetScale(displays: seq<LogicalDisplay>): (r: real)
    ensures r >= 1.0
    ensures forall k :: 0 <= k < |displays| ==> displays[k].scale <= r
    ensures r == 1.0 || exists k :: 0 <= k < |displays| && displays[k].scale == r
  {
    if |displays| == 0 then 1.0
    else
      var n := |displays| - 1;
      var best := GetScale(displays[..n]);
      assert forall k :: 0 <= k < n ==> displays[..n][k] == displays[k];
      if displays[n].scale > best then displays[n].scale else best
  }

  /** Every monitor of the display offers `scale` in its current mode. */
  predicate SupportsScale(d: LogicalDisplay, scale: real)
    requires forall j :: 0 <= j < |d.monitors| ==> HasCurrentMode(d.monitors[j])
  {
    forall j :: 0 <= j < |d.monitors| ==> scale in CurrentMode(d.monitors[j]).supportedScales
  }

  /** The monitor entries of one display, failing on the first monitor without a current mode. */
  function MarshalMonitors(monitors: seq<Monitor>): (r: Result<seq<MonitorArg>, Error>)
    ensures r.Success? <==> forall j :: 0 <= j < |monitors| ==> HasCurrentMode(monitors[j])
    ensures r.Success? ==>
      && |r.value| == |monitors|
      && forall j :: 0 <= j < |monitors| ==>
           r.value[j] == MonitorArg(monitors[j].connector, CurrentMode(monitors[j]).id, false)
    ensures r.Failure? ==>
      exists j :: 0 <= j < |monitors| && !HasCurrentMode(monitors[j])
        && (forall i :: 0 <= i < j ==> HasCurrentMode(monitors[i]))
        && r.error == (if monitors[j].modes.None? then MissingModes(monitors[j].connector)
                       else NoModes(monitors[j].connector))
  {
    if |monitors| == 0 then Success([])
    else
      var m := monitors[0];
      if m.modes.None? then Failure(MissingModes(m.connector))
      else if |m.modes.value| == 0 then Failure(NoModes(m.connector))
      else
        var rest :- MarshalMonitors(monitors[1..]);
        assert forall j :: 1 <= j < |monitors| ==> monitors[j] == monitors[1..][j - 1];
        Success([MonitorArg(m.connector, m.modes.value[0].id, false)] + rest)
  }

  function MarshalDisplay(d: LogicalDisplay, scale: real): Result<DisplayArg, Error> {
    var monitors :- MarshalMonitors(d.monitors);
    Success(DisplayArg(d.x, d.y, if SupportsScale(d, scale) then scale else 1.0,
                       d.transform, d.primary, monitors))
  }

  /** Every monitor of every display has a current mode. */
  ghost predicate AllHaveModes(displays: seq<LogicalDisplay>) {
    forall k, j :: 0 <= k < |displays| && 0 <= j < |displays[k].monitors| ==>
      HasCurrentMode(displays[k].monitors[j])
  }

  /** The argument of the apply call for a layout: the serial it was read with, the
      method code 1, and per display its position, transform and primary flag as
      they are, with the requested scale wherever every monitor's current mode supports
      it and 1.0 elsewhere. */
  function ApplyMonitorsConfiguration(serial: nat, displays: seq<LogicalDisplay>, scale: real)
    : (r: Result<ApplyRequest, Error>)
    ensures r.Success? <==> AllHaveModes(displays)
    ensures r.Failure? ==>
      exists k, j :: 0 <= k < |displays| && 0 <= j < |displays[k].monitors|
        && !HasCurrentMode(displays[k].monitors[j])
        && r.error in {MissingModes(displays[k].monitors[j].connector), NoModes(displays[k].monitors[j].connector)}
    ensures r.Success? ==>
      && r.value.serial == serial
      && r.value.layoutMethod == APPLY_METHOD
      && |r.value.displays| == |displays|
      && forall k :: 0 <= k < |displays| ==>
           var d, arg := displays[k], r.value.displays[k];
           && arg.x == d.x && arg.y == d.y && arg.transform == d.transform && arg.primary == d.primary
           && arg.scale == (if SupportsScale(d, scale) then scale else 1.0)
           && |arg.monitors| == |d.monitors|
           && forall j :: 0 <= j < |d.monitors| ==>
                arg.monitors[j] == MonitorArg(d.monitors[j].connector, CurrentMode(d.monitors[j]).id, false)
  {
    var args :- MarshalDisplays(displays, scale);
    Success(ApplyRequest(serial, APPLY_METHOD, args))
  }

  function MarshalDisplays(displays: seq<LogicalDisplay>, scale: real): (r: Result<seq<DisplayArg>, Error>)
    ensures r.Success? <==> AllHaveModes(displays)
    ensures r.Failure? ==>
      exists k, j :: 0 <= k < |displays| && 0 <= j < |displays[k].monitors|
        && !HasCurrentMode(displays[k].monitors[j])
        && r.error in {MissingModes(displays[k].monitors[j].connector), NoModes(displays[k].monitors[j].connector)}
    ensures r.Success? ==>
      && |r.value| == |displays|
      && forall k :: 0 <= k < |displays| ==> MarshalDisplay(displays[k], scale) == Success(r.value[k])
  {
    if |displays| == 0 then Success([])
    else
      var first :- MarshalDisplay(displays[0], scale);
      var rest :- MarshalDisplays(displays[1..], scale);
      assert forall k :: 1 <= k < |displays| ==> displays[k] == displays[1..][k - 1];
      Success([first] + rest)
  }

  /** The whole rotation step on a snapshot: rotate, then build the apply argument with
      the snapshot's own serial from the rotated layout. Errors of either half abort the
      step. */
  function SetRotation(snapshot: Snapshot, connector: string, rotation: string, scale: real)
    : (r: Result<ApplyRequest, Error>)
    ensures ApplyRotation(snapshot.displays, connector, rotation).Failure? ==>
      r == Failure(ApplyRotation(snapshot.displays, connector, rotation).error)
    ensures ApplyRotation(snapshot.displays, connector, rotation).Success? ==>
      var rotated := ApplyRotation(snapshot.displays, connector, rotation).value;
      && (r.Success? <==> AllHaveModes(rotated))
      && (r.Success? ==>
            && r.value.serial == snapshot.serial
            && r.value.layoutMethod == APPLY_METHOD
            && |r.value.displays| == |snapshot.displays|
            && forall k :: 0 <= k < |rotated| ==>
                 var d, arg := rotated[k], r.value.displays[k];
                 && arg.x == d.x && arg.y == d.y && arg.transform == d.transform
                 && arg.primary == d.primary
                 && arg.scale == (if SupportsScale(d, scale) then scale else 1.0)
                 && |arg.monitors| == |d.monitors|
                 && forall j :: 0 <= j < |d.monitors| ==>
                      arg.monitors[j] == MonitorArg(d.monitors[j].connector, CurrentMode(d.monitors[j]).id, false))
  {
    var rotated :- ApplyRotation(snapshot.displays, connector, rotation);
    ApplyMonitorsConfiguration(snapshot.serial, rotated, scale)
  }
}
