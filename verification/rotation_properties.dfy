/** What the rotation engine promises across calls: re-applying a rotation changes
    nothing, rotating back restores a shelf layout, and the worked 1920x1080 example. */
module RotationProperties {
  import opened Wrappers
  import opened Layout
  import opened Rotation

  /** Two layouts with the same monitors, display by display. */
  ghost predicate SameMonitors(a: seq<LogicalDisplay>, b: seq<LogicalDisplay>) {
    |a| == |b| && forall k :: 0 <= k < |a| ==> a[k].monitors == b[k].monitors
  }

  /** The target search reads only the monitors, so a rotation never moves it. */
  lemma SameMonitorsSameTarget(a: seq<LogicalDisplay>, b: seq<LogicalDisplay>, connector: string)
    requires SameMonitors(a, b)
    ensures FindTarget(a, connector) == FindTarget(b, connector)
  {
    assert MonitorLists(a) == MonitorLists(b);
  }

  /** A rotation keeps every display's monitors, so the same display stays the target,
      and that display now carries the requested transform. */
  lemma RotationKeepsTarget(displays: seq<LogicalDisplay>, connector: string, rotation: string)
    requires ApplyRotation(displays, connector, rotation).Success?
    ensures var r := ApplyRotation(displays, connector, rotation).value;
      && SameMonitors(displays, r)
      && FindTarget(r, connector) == FindTarget(displays, connector)
      && r[FindTarget(r, connector).value.display].transform == RotationCode(rotation).value
  {
    var r := ApplyRotation(displays, connector, rotation).value;
    var t := FindTarget(displays, connector).value;
    var code := RotationCode(rotation).value;
    var delta := SizeDelta(displays[t.display], code, CurrentMode(displays[t.display].monitors[t.monitor]));
    assert Moved(displays, r, t.display, code, delta.width, delta.height);
    SameMonitorsSameTarget(displays, r, connector);
  }

  /** Rotating a display to the transform it already has leaves the layout as it is. */
  lemma AlreadyRotatedIsIdentity(displays: seq<LogicalDisplay>, connector: string, rotation: string)
    requires RotationCode(rotation).Success?
    requires FindTarget(displays, connector).Some?
    requires var t := FindTarget(displays, connector).value;
      && HasCurrentMode(displays[t.display].monitors[t.monitor])
      && displays[t.display].transform == RotationCode(rotation).value
    ensures ApplyRotation(displays, connector, rotation) == Success(displays)
  {
    var t := FindTarget(displays, connector).value;
    var r := ApplyRotation(displays, connector, rotation);
    var delta := SizeDelta(displays[t.display], RotationCode(rotation).value,
                           CurrentMode(displays[t.display].monitors[t.monitor]));
    assert delta == Size(0, 0);
    assert Moved(displays, r.value, t.display, RotationCode(rotation).value, 0, 0);
    forall k | 0 <= k < |displays|
      ensures r.value[k] == displays[k]
    {
    }
    assert r.value == displays;
  }

  /** Applying the same rotation twice is the same as applying it once: the second
      call finds the display already in the target transform. */
  lemma ApplyRotationIdempotent(displays: seq<LogicalDisplay>, connector: string, rotation: string)
    requires ApplyRotation(displays, connector, rotation).Success?
    ensures var once := ApplyRotation(displays, connector, rotation).value;
      ApplyRotation(once, connector, rotation) == Success(once)
  {
    var once := ApplyRotation(displays, connector, rotation).value;
    var t := FindTarget(displays, connector).value;
    SameMonitorsSameTarget(displays, once, connector);
    AlreadyRotatedIsIdentity(once, connector, rotation);
  }

  /** A shelf layout around display `i` of footprint `size`: every display strictly
      right of its corner starts at or beyond its right edge, and every display strictly
      below it starts at or beyond its bottom edge. */
  ghost predicate Shelf(displays: seq<LogicalDisplay>, i: nat, size: Size)
    requires i < |displays|
  {
    forall k :: 0 <= k < |displays| ==>
      && (displays[k].x > displays[i].x ==> displays[k].x >= displays[i].x + size.width)
      && (displays[k].y > displays[i].y ==> displays[k].y >= displays[i].y + size.height)
  }

  /** Moving a shelf layout by (dw, dh) and back by (-dw, -dh) around the same display
      restores it, as long as the moved footprint keeps a positive size. */
  lemma MoveThereAndBack(before: seq<LogicalDisplay>, once: seq<LogicalDisplay>, twice: seq<LogicalDisplay>,
                         i: nat, code: nat, dw: int, dh: int, size: Size)
    requires i < |before|
    requires Shelf(before, i, size) && size.width + dw > 0 && size.height + dh > 0
    requires Moved(before, once, i, code, dw, dh)
    requires Moved(once, twice, i, before[i].transform, -dw, -dh)
    ensures twice == before
  {
    forall k | 0 <= k < |before|
      ensures twice[k] == before[k]
    {
      if before[k].x > before[i].x {
        assert once[k].x > once[i].x;
      }
      if before[k].y > before[i].y {
        assert once[k].y > once[i].y;
      }
    }
  }

  /** Rotating a display of a shelf layout and then rotating it back to its original
      transform restores the original layout exactly. */
  lemma RotateBackRestores(displays: seq<LogicalDisplay>, connector: string, rotation: string, back: string)
    requires ApplyRotation(displays, connector, rotation).Success?
    requires var t := FindTarget(displays, connector).value;
      var mode := CurrentMode(displays[t.display].monitors[t.monitor]);
      && mode.width > 0 && mode.height > 0
      && RotationCode(back) == Success(displays[t.display].transform)
      && Shelf(displays, t.display, EffectiveSize(displays[t.display].transform, mode))
    ensures var once := ApplyRotation(displays, connector, rotation).value;
      ApplyRotation(once, connector, back) == Success(displays)
  {
    var code := RotationCode(rotation).value;
    var t := FindTarget(displays, connector).value;
    var i := t.display;
    var mode := CurrentMode(displays[i].monitors[t.monitor]);
    var delta := SizeDelta(displays[i], code, mode);
    MovesBy(displays, connector, rotation, t, code, delta.width, delta.height);
    var once := ApplyRotation(displays, connector, rotation).value;
    RotatesBack(displays, once, connector, back, t, code, mode, delta.width, delta.height);
    MoveThereAndBack(displays, once, ApplyRotation(once, connector, back).value, i, code,
                     delta.width, delta.height, EffectiveSize(displays[i].transform, mode));
  }

  /** After a move by (dw, dh) around the target, rotating the target back to its
      original transform moves the layout by (-dw, -dh). */
  lemma RotatesBack(displays: seq<LogicalDisplay>, once: seq<LogicalDisplay>, connector: string,
                    back: string, t: Target, code: nat, mode: Mode, dw: int, dh: int)
    requires FindTarget(displays, connector) == Some(t)
    requires Moved(displays, once, t.display, code, dw, dh)
    requires HasCurrentMode(displays[t.display].monitors[t.monitor])
    requires mode == CurrentMode(displays[t.display].monitors[t.monitor])
    requires SizeDelta(displays[t.display], code, mode) == Size(dw, dh)
    requires RotationCode(back) == Success(displays[t.display].transform)
    ensures ApplyRotation(once, connector, back).Success?
    ensures Moved(once, ApplyRotation(once, connector, back).value, t.display,
                  displays[t.display].transform, -dw, -dh)
  {
    var i := t.display;
    SameMonitorsSameTarget(displays, once, connector);
    assert once[i].monitors == displays[i].monitors;
    SizeDeltaReverses(displays[i], once[i], code, mode, dw, dh);
    MovesBy(once, connector, back, t, displays[i].transform, -dw, -dh);
  }

  /** Turning back from `code` to the original transform undoes the size change. */
  lemma SizeDeltaReverses(before: LogicalDisplay, after: LogicalDisplay, code: nat, mode: Mode, dw: int, dh: int)
    requires after.transform == code && SizeDelta(before, code, mode) == Size(dw, dh)
    ensures SizeDelta(after, before.transform, mode) == Size(-dw, -dh)
  {
  }

  /** A rotation whose target, code and size change are known moves the layout by
      that change. */
  lemma MovesBy(displays: seq<LogicalDisplay>, connector: string, rotation: string, t: Target,
                code: nat, dw: int, dh: int)
    requires FindTarget(displays, connector) == Some(t)
    requires HasCurrentMode(displays[t.display].monitors[t.monitor])
    requires RotationCode(rotation) == Success(code)
    requires SizeDelta(displays[t.display], code, CurrentMode(displays[t.display].monitors[t.monitor]))
               == Size(dw, dh)
    ensures ApplyRotation(displays, connector, rotation).Success?
    ensures Moved(displays, ApplyRotation(displays, connector, rotation).value, t.display, code, dw, dh)
  {
  }

  /** The worked example: a 1920x1080 panel at the origin turned from normal to left.
      The display to its right moves left by 840; the display below it moves down by
      840 but keeps its x, since it is not strictly to the right. */
  lemma LeftRotationExample()
    ensures
      var mode := Mode("1920x1080@60", 1920, 1080, 60.0, 1.0, [1.0, 2.0]);
      var a := LogicalDisplay(0, 0, 1.0, 0, true, [Monitor("eDP-1", "v", "p", "s", Some([mode]))]);
      var b := LogicalDisplay(1920, 0, 1.0, 0, false, [Monitor("HDMI-1", "v", "p", "s", Some([mode]))]);
      var c := LogicalDisplay(0, 1080, 1.0, 0, false, [Monitor("DP-1", "v", "p", "s", Some([mode]))]);
      ApplyRotation([a, b, c], "eDP-1", "left")
        == Success([a.(transform := 1), b.(x := 1080), c.(y := 1920)])
  {
    var mode := Mode("1920x1080@60", 1920, 1080, 60.0, 1.0, [1.0, 2.0]);
    var a := LogicalDisplay(0, 0, 1.0, 0, true, [Monitor("eDP-1", "v", "p", "s", Some([mode]))]);
    var b := LogicalDisplay(1920, 0, 1.0, 0, false, [Monitor("HDMI-1", "v", "p", "s", Some([mode]))]);
    var c := LogicalDisplay(0, 1080, 1.0, 0, false, [Monitor("DP-1", "v", "p", "s", Some([mode]))]);
    var ds := [a, b, c];
    assert FindTarget(ds, "eDP-1") == Some(Target(0, 0));
    var r := ApplyRotation(ds, "eDP-1", "left");
    assert Moved(ds, r.value, 0, 1, -840, 840);
    assert r.value == [a.(transform := 1), b.(x := 1080), c.(y := 1920)];
  }
}
