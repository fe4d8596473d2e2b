/** The rotation geometry engine: set one logical display's transform and move the
    displays to its right and below it by how much its footprint changed. */
module Rotation {
  import opened Wrappers
  import opened Layout

  /** Rotation names and the transform codes the configuration protocol uses for them. */
  const ROTATION_MAP: map<string, nat> := map["normal" := 0, "left" := 1, "right" := 3, "inverted" := 6]

  /** The wire code of a rotation name; any other name is rejected before anything changes. */
  function RotationCode(name: string): (r: Result<nat, Error>)
    ensures r.Success? <==> name == "normal" || name == "left" || name == "right" || name == "inverted"
    ensures r.Failure? ==> r.error == InvalidRotation(name)
    ensures r == Success(0) <==> name == "normal"
    ensures r == Success(1) <==> name == "left"
    ensures r == Success(3) <==> name == "right"
    ensures r == Success(6) <==> name == "inverted"
  {
    if name in ROTATION_MAP then Success(ROTATION_MAP[name]) else Failure(InvalidRotation(name))
  }

  /** The transforms the daemon treats as unswapped: its test is membership in {0, 6}.
      Other codes that keep the width horizontal in the service's encoding, such as 2,
      are treated as swapped. */
  predicate Upright(transform: nat) {
    transform == 0 || transform == 6
  }

  datatype Size = Size(width: int, height: int)

  /** The footprint of a mode under a transform: the mode's own size when upright,
      width and height exchanged otherwise. */
  function EffectiveSize(transform: nat, mode: Mode): Size {
    if Upright(transform) then Size(mode.width, mode.height) else Size(mode.height, mode.width)
  }

  /** A change of transform changes the footprint by a swap: what the width gains the
      height loses, and nothing changes when both transforms are upright or both are
      not, or when the mode is square. */
  lemma ResizeIsSwap(from: nat, to: nat, mode: Mode)
    ensures var a, b := EffectiveSize(from, mode), EffectiveSize(to, mode);
      && b.width - a.width == -(b.height - a.height)
      && (b.width - a.width == 0 <==> Upright(from) == Upright(to) || mode.width == mode.height)
      && (Upright(from) && !Upright(to) ==> b.width - a.width == mode.height - mode.width)
  {
  }

  ghost predicate Drives(monitors: seq<Monitor>, connector: string) {
    exists j :: 0 <= j < |monitors| && monitors[j].connector == connector
  }

  /** Where a connector sits: a display index and a monitor index inside it. */
  datatype Target = Target(display: nat, monitor: nat)

  /** `t` is the first monitor with the connector, in display order and then monitor order. */
  ghost predicate FirstTarget(displays: seq<LogicalDisplay>, connector: string, t: Target) {
    && t.display < |displays|
    && t.monitor < |displays[t.display].monitors|
    && displays[t.display].monitors[t.monitor].connector == connector
    && (forall i :: 0 <= i < t.display ==> !Drives(displays[i].monitors, connector))
    && forall j :: 0 <= j < t.monitor ==> displays[t.display].monitors[j].connector != connector
  }

  function FirstMonitorFrom(monitors: seq<Monitor>, connector: string, start: nat): (r: Option<nat>)
    requires start <= |monitors|
    ensures r.None? <==> forall j :: start <= j < |monitors| ==> monitors[j].connector != connector
    ensures r.Some? ==>
      && start <= r.value < |monitors| && monitors[r.value].connector == connector
      && forall j :: start <= j < r.value ==> monitors[j].connector != connector
    decreases |monitors| - start
  {
    if start == |monitors| then None
    else if monitors[start].connector == connector then Some(start)
    else FirstMonitorFrom(monitors, connector, start + 1)
  }

  /** The search over the displays' monitor lists, from list `start` on. */
  function FindTargetFrom(lists: seq<seq<Monitor>>, connector: string, start: nat): (r: Option<Target>)
    requires start <= |lists|
    ensures r.None? <==> forall i :: start <= i < |lists| ==> !Drives(lists[i], connector)
    ensures r.Some? ==>
      && start <= r.value.display < |lists|
      && r.value.monitor < |lists[r.value.display]|
      && lists[r.value.display][r.value.monitor].connector == connector
      && (forall i :: start <= i < r.value.display ==> !Drives(lists[i], connector))
      && forall j :: 0 <= j < r.value.monitor ==> lists[r.value.display][j].connector != connector
    decreases |lists| - start
  {
    if start == |lists| then None
    else
      match FirstMonitorFrom(lists[start], connector, 0)
      case Some(j) => Some(Target(start, j))
      case None => FindTargetFrom(lists, connector, start + 1)
  }

  /** The monitor list of every display, in display order. */
  function MonitorLists(displays: seq<LogicalDisplay>): (lists: seq<seq<Monitor>>)
    ensures |lists| == |displays|
  {
    seq(|displays|, k requires 0 <= k < |displays| => displays[k].monitors)
  }

  /** The search of the engine: the first display driving the connector, and the first
      such monitor in it. It reads nothing but the displays' monitor lists. */
  function FindTarget(displays: seq<LogicalDisplay>, connector: string): (r: Option<Target>)
    ensures r.None? <==> forall i :: 0 <= i < |displays| ==> !Drives(displays[i].monitors, connector)
    ensures r.Some? ==> FirstTarget(displays, connector, r.value)
  {
    var lists := MonitorLists(displays);
    assert forall i :: 0 <= i < |displays| ==> lists[i] == displays[i].monitors;
    FindTargetFrom(lists, connector, 0)
  }

  /** The neighbour rule: move right by `dw` when strictly right of the anchor, down by
      `dh` when strictly below it. */
  function Shift(d: LogicalDisplay, anchorX: int, anchorY: int, dw: int, dh: int): LogicalDisplay {
    d.(x := if d.x > anchorX then d.x + dw else d.x,
       y := if d.y > anchorY then d.y + dh else d.y)
  }

  /** `after` is `before` with display `i` set to transform `code` and every display
      strictly right of (below) display `i`'s old position moved by `dw` (`dh`); the
      rotated display keeps its corner, and scale, primary flag and monitors never change. */
  ghost predicate Moved(before: seq<LogicalDisplay>, after: seq<LogicalDisplay>, i: nat, code: nat, dw: int, dh: int)
    requires i < |before|
  {
    && |after| == |before|
    && after[i].transform == code
    && after[i].x == before[i].x && after[i].y == before[i].y
    && forall k :: 0 <= k < |before| ==>
         && after[k].x == (if before[k].x > before[i].x then before[k].x + dw else before[k].x)
         && after[k].y == (if before[k].y > before[i].y then before[k].y + dh else before[k].y)
         && after[k].scale == before[k].scale
         && after[k].primary == before[k].primary
         && after[k].monitors == before[k].monitors
         && (k != i ==> after[k].transform == before[k].transform)
  }

  /** Display `i` set to transform `code`, then every display shifted around display
      `i`'s corner. */
  function Reposition(displays: seq<LogicalDisplay>, i: nat, code: nat, dw: int, dh: int)
    : (after: seq<LogicalDisplay>)
    requires i < |displays|
    ensures Moved(displays, after, i, code, dw, dh)
  {
    var d := displays[i];
    var updated := displays[i := d.(transform := code)];
    seq(|updated|, k requires 0 <= k < |updated| => Shift(updated[k], d.x, d.y, dw, dh))
  }

  /** The size change the engine computes for the target: new footprint minus old. */
  function SizeDelta(d: LogicalDisplay, code: nat, mode: Mode): Size {
    var before, after := EffectiveSize(d.transform, mode), EffectiveSize(code, mode);
    Size(after.width - before.width, after.height - before.height)
  }

  /** Sets the transform of the display driving `connector` to the named rotation and
      moves its neighbours. Fails on an unknown name, on a connector no display drives,
      and on a target monitor without a current mode. */
  function ApplyRotation(displays: seq<LogicalDisplay>, connector: string, rotation: string)
    : (r: Result<seq<LogicalDisplay>, Error>)
    ensures RotationCode(rotation).Failure? ==> r == Failure(InvalidRotation(rotation))
    ensures RotationCode(rotation).Success? ==>
      (r == Failure(ConnectorNotFound(connector)) <==>
         forall i :: 0 <= i < |displays| ==> !Drives(displays[i].monitors, connector))
    ensures RotationCode(rotation).Success? && FindTarget(displays, connector).Some? ==>
      var t := FindTarget(displays, connector).value;
      var m := displays[t.display].monitors[t.monitor];
      && (r.Success? <==> HasCurrentMode(m))
      && (m.modes.None? ==> r == Failure(MissingModes(connector)))
      && (m.modes.Some? && |m.modes.value| == 0 ==> r == Failure(NoModes(connector)))
      && (r.Success? ==>
            var delta := SizeDelta(displays[t.display], RotationCode(rotation).value, CurrentMode(m));
            Moved(displays, r.value, t.display, RotationCode(rotation).value, delta.width, delta.height))
  {
    var code :- RotationCode(rotation);
    match FindTarget(displays, connector)
    case None => Failure(ConnectorNotFound(connector))
    case Some(t) =>
      var m := displays[t.display].monitors[t.monitor];
      if m.modes.None? then Failure(MissingModes(connector))
      else if |m.modes.value| == 0 then Failure(NoModes(connector))
      else
        var delta := SizeDelta(displays[t.display], code, m.modes.value[0]);
        Success(Reposition(displays, t.display, code, delta.width, delta.height))
  }
}
