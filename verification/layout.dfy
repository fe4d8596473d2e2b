/** The display layout as the display-configuration service reports it, and its
    decoding into logical displays that each know the modes of their monitors. */
module Layout {
  import opened Wrappers

  /** One display mode: identifier, pixel size, refresh rate, preferred scale and
      the scales the service supports for it. */
  datatype Mode = Mode(id: string, width: int, height: int, refreshRate: real,
                       preferredScale: real, supportedScales: seq<real>)

  /** The identity of a physical monitor as the service names it. */
  datatype MonitorSpec = MonitorSpec(connector: string, vendor: string, product: string, serial: string)

  /** An entry of the service's monitor list; the first mode is the current one. */
  datatype RawMonitor = RawMonitor(spec: MonitorSpec, modes: seq<Mode>)

  /** An entry of the service's logical-display list, naming its monitors by identity only. */
  datatype RawLogicalDisplay = RawLogicalDisplay(x: int, y: int, scale: real, transform: nat,
                                                 primary: bool, monitors: seq<MonitorSpec>)

  /** The reply of the service's state query: serial, monitor list, logical-display list. */
  datatype RawState = RawState(serial: nat, monitors: seq<RawMonitor>, logicalDisplays: seq<RawLogicalDisplay>)

  /** A decoded monitor. `modes` is None when no entry of the monitor list carries
      its connector: the decoder then never sets the field. */
  datatype Monitor = Monitor(connector: string, vendor: string, product: string, serial: string,
                             modes: Option<seq<Mode>>)

  datatype LogicalDisplay = LogicalDisplay(x: int, y: int, scale: real, transform: nat,
                                           primary: bool, monitors: seq<Monitor>)

  /** A decoded layout together with the serial it was read with. */
  datatype Snapshot = Snapshot(serial: nat, displays: seq<LogicalDisplay>)

  /** The errors the daemon raises while rotating or writing back a layout. */
  datatype Error =
    | InvalidRotation(name: string)
    | ConnectorNotFound(connector: string)
    | MissingModes(connector: string)   // the monitor's modes were never decoded
    | NoModes(connector: string)        // the monitor has no current mode

  /** A monitor that has a current mode to read sizes and scales from. */
  predicate HasCurrentMode(m: Monitor) {
    m.modes.Some? && |m.modes.value| > 0
  }

  function CurrentMode(m: Monitor): Mode
    requires HasCurrentMode(m)
  {
    m.modes.value[0]
  }

  /** Entry `i` is the last monitor-list entry with the connector. */
  ghost predicate LastWith(monitors: seq<RawMonitor>, connector: string, i: int) {
    && 0 <= i < |monitors|
    && monitors[i].spec.connector == connector
    && forall k :: i < k < |monitors| ==> monitors[k].spec.connector != connector
  }

  /** `modes` is what the decoder stores for `connector`: the modes of the LAST
      monitor-list entry with that connector, or nothing when there is none. */
  ghost predicate ModesOf(monitors: seq<RawMonitor>, connector: string, modes: Option<seq<Mode>>) {
    if modes.None? then
      forall i :: 0 <= i < |monitors| ==> monitors[i].spec.connector != connector
    else
      exists i :: LastWith(monitors, connector, i) && monitors[i].modes == modes.value
  }

  /** ModesOf names exactly one value, so it pins the decoder down completely. */
  lemma ModesOfUnique(monitors: seq<RawMonitor>, connector: string, a: Option<seq<Mode>>, b: Option<seq<Mode>>)
    requires ModesOf(monitors, connector, a) && ModesOf(monitors, connector, b)
    ensures a == b
  {
    if a.Some? && b.Some? {
      var i :| LastWith(monitors, connector, i) && monitors[i].modes == a.value;
      var j :| LastWith(monitors, connector, j) && monitors[j].modes == b.value;
      assert i == j;
    }
  }

  /** The scan over the monitor list that overwrites on every match, so the last one wins. */
  function LookupModes(monitors: seq<RawMonitor>, connector: string): (r: Option<seq<Mode>>)
    ensures ModesOf(monitors, connector, r)
  {
    if |monitors| == 0 then None
    else
      var n := |monitors| - 1;
      if monitors[n].spec.connector == connector then
        assert LastWith(monitors, connector, n);
        Some(monitors[n].modes)
      else
        var prefix := monitors[..n];
        var r := LookupModes(prefix, connector);
        assert forall i :: 0 <= i < n ==> prefix[i] == monitors[i];
        assert r.Some? ==> exists i :: LastWith(monitors, connector, i) && monitors[i].modes == r.value by {
          if r.Some? {
            var i :| LastWith(prefix, connector, i) && prefix[i].modes == r.value;
            assert LastWith(monitors, connector, i);
          }
        }
        r
  }

  function DecodeMonitor(spec: MonitorSpec, monitors: seq<RawMonitor>): Monitor {
    Monitor(spec.connector, spec.vendor, spec.product, spec.serial, LookupModes(monitors, spec.connector))
  }

  function DecodeDisplay(d: RawLogicalDisplay, monitors: seq<RawMonitor>): LogicalDisplay {
    LogicalDisplay(d.x, d.y, d.scale, d.transform, d.primary,
                   seq(|d.monitors|, j requires 0 <= j < |d.monitors| => DecodeMonitor(d.monitors[j], monitors)))
  }

  /** Decodes the service's state reply, keeping the serial and the display order. */
  function UnpackCurrentState(state: RawState): (s: Snapshot)
    ensures s.serial == state.serial
    ensures |s.displays| == |state.logicalDisplays|
    ensures forall k :: 0 <= k < |s.displays| ==>
      var d, raw := s.displays[k], state.logicalDisplays[k];
      && d.x == raw.x && d.y == raw.y && d.scale == raw.scale
      && d.transform == raw.transform && d.primary == raw.primary
      && |d.monitors| == |raw.monitors|
    ensures forall k, j :: 0 <= k < |s.displays| && 0 <= j < |s.displays[k].monitors| ==>
      var m, spec := s.displays[k].monitors[j], state.logicalDisplays[k].monitors[j];
      && m.connector == spec.connector && m.vendor == spec.vendor
      && m.product == spec.product && m.serial == spec.serial
      && ModesOf(state.monitors, spec.connector, m.modes)
  {
    Snapshot(state.serial,
             seq(|state.logicalDisplays|, k requires 0 <= k < |state.logicalDisplays|
                   => DecodeDisplay(state.logicalDisplays[k], state.monitors)))
  }

  /** Every monitor-list entry has a mode, and every monitor a logical display
      names appears in the monitor list. */
  ghost predicate FullyListed(state: RawState) {
    && (forall i :: 0 <= i < |state.monitors| ==> |state.monitors[i].modes| > 0)
    && forall k, j :: 0 <= k < |state.logicalDisplays| && 0 <= j < |state.logicalDisplays[k].monitors| ==>
         exists i :: 0 <= i < |state.monitors|
           && state.monitors[i].spec.connector == state.logicalDisplays[k].monitors[j].connector
  }

  /** When the state is fully listed, every decoded monitor has a current mode. */
  lemma FullyListedDecodesModes(state: RawState)
    requires FullyListed(state)
    ensures var s := UnpackCurrentState(state);
      forall k, j :: 0 <= k < |s.displays| && 0 <= j < |s.displays[k].monitors| ==>
        HasCurrentMode(s.displays[k].monitors[j])
  {
    var s := UnpackCurrentState(state);
    forall k, j | 0 <= k < |s.displays| && 0 <= j < |s.displays[k].monitors|
      ensures HasCurrentMode(s.displays[k].monitors[j])
    {
      var spec := state.logicalDisplays[k].monitors[j];
      var m := s.displays[k].monitors[j];
      assert ModesOf(state.monitors, spec.connector, m.modes);
      var i :| 0 <= i < |state.monitors| && state.monitors[i].spec.connector == spec.connector;
      assert m.modes.Some?;
    }
  }
}
