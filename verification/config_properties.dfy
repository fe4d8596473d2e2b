/** How the apply argument relates to the layout it was built from: a fetched layout
    written back unrotated keeps its geometry, and a rotation never changes the scale
    the daemon requests. */
module ConfigProperties {
  import opened Wrappers
  import opened Layout
  import opened Rotation
  import opened Config
  import opened RotationProperties

  lemma {:induction false} SameScalesSameGetScale(a: seq<LogicalDisplay>, b: seq<LogicalDisplay>)
    requires |a| == |b| && forall k :: 0 <= k < |a| ==> a[k].scale == b[k].scale
    ensures GetScale(a) == GetScale(b)
  {
    if |a| > 0 {
      var n := |a| - 1;
      SameScalesSameGetScale(a[..n], b[..n]);
    }
  }

  /** The scale read before a rotation is the scale of the rotated layout, so fetching
      it before or after rotating makes no difference. */
  lemma RotationKeepsScale(displays: seq<LogicalDisplay>, connector: string, rotation: string)
    requires ApplyRotation(displays, connector, rotation).Success?
    ensures GetScale(ApplyRotation(displays, connector, rotation).value) == GetScale(displays)
  {
    var r := ApplyRotation(displays, connector, rotation).value;
    var t := FindTarget(displays, connector).value;
    var m := displays[t.display].monitors[t.monitor];
    var delta := SizeDelta(displays[t.display], RotationCode(rotation).value, CurrentMode(m));
    assert Moved(displays, r, t.display, RotationCode(rotation).value, delta.width, delta.height);
    SameScalesSameGetScale(r, displays);
  }

  /** Writing a fetched layout straight back: when every monitor is listed with a mode,
      the apply argument carries the fetched serial and, display by display and in
      order, the fetched position, transform, primary flag and monitor connectors, and
      a display whose monitors all support the requested scale gets that scale. */
  lemma FetchThenApply(state: RawState, scale: real)
    requires FullyListed(state)
    ensures var s := UnpackCurrentState(state);
      var r := ApplyMonitorsConfiguration(s.serial, s.displays, scale);
      && r.Success?
      && r.value.serial == state.serial
      && |r.value.displays| == |state.logicalDisplays|
      && forall k :: 0 <= k < |state.logicalDisplays| ==>
           var raw, arg := state.logicalDisplays[k], r.value.displays[k];
           && arg.x == raw.x && arg.y == raw.y
           && arg.transform == raw.transform && arg.primary == raw.primary
           && |arg.monitors| == |raw.monitors|
           && (forall j :: 0 <= j < |raw.monitors| ==> arg.monitors[j].connector == raw.monitors[j].connector)
           && (SupportsScale(s.displays[k], scale) ==> arg.scale == scale)
  {
    FullyListedDecodesModes(state);
  }

  /** Re-applying a layout whose displays all sit at the requested scale, with that
      scale supported everywhere, reproduces every display's geometry and scale. */
  lemma UniformScaleReapplyIsNoOp(serial: nat, displays: seq<LogicalDisplay>)
    requires AllHaveModes(displays)
    requires forall k :: 0 <= k < |displays| ==>
      displays[k].scale == GetScale(displays) && SupportsScale(displays[k], GetScale(displays))
    ensures var r := ApplyMonitorsConfiguration(serial, displays, GetScale(displays));
      && r.Success?
      && forall k :: 0 <= k < |displays| ==>
           var d, arg := displays[k], r.value.displays[k];
           arg == DisplayArg(d.x, d.y, d.scale, d.transform, d.primary, arg.monitors)
  {
  }

  /** Asking for the rotation the panel already has writes the fetched layout back as
      it is: the same argument as applying the snapshot without any rotation. */
  lemma SetRotationToCurrentRewritesLayout(snapshot: Snapshot, connector: string, rotation: string, scale: real)
    requires RotationCode(rotation).Success?
    requires FindTarget(snapshot.displays, connector).Some?
    requires var t := FindTarget(snapshot.displays, connector).value;
      && HasCurrentMode(snapshot.displays[t.display].monitors[t.monitor])
      && snapshot.displays[t.display].transform == RotationCode(rotation).value
    ensures SetRotation(snapshot, connector, rotation, scale)
         == ApplyMonitorsConfiguration(snapshot.serial, snapshot.displays, scale)
  {
    AlreadyRotatedIsIdentity(snapshot.displays, connector, rotation);
  }
}
