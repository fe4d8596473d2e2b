# Accelerometer-driven screen rotation, modelled in Dafny

The system watches one axis of a USB accelerometer, classifies each reading as
landscape, rotated left or rotated right (or as a dead-zone reading that means
nothing), and on every change of orientation rotates the laptop panel through the
desktop's display-configuration service: it reads the current layout, sets the
panel's transform, moves the displays to the right of and below the panel by the
change in its footprint, and writes the layout back requesting one scale, falling
back to 1.0 for any display whose monitors do not all support it. A
second program classifies the same kind of readings and injects a synthetic
accelerometer vector instead.

This project models that core as pure functions over immutable datatypes:

- `Classifier` — the table-driven classifier (`STATE_RANGES`, `determine_accel_state`).
- `Layout` — modes, monitors, logical displays, the service's state reply and its
  decoding (`unpack_current_state`).
- `Rotation` — the rotation-name table, the footprint swap, the target search and the
  neighbour shift of `set_rotation`, as `ApplyRotation`.
- `RotationProperties` — idempotence, rotate-and-back, and the 1920x1080 example.
- `Config` — `get_scale` and the argument of the apply call built by
  `apply_monitors_configuration`; `SetRotation` chains rotation and marshalling.
- `ConfigProperties` — fetch-then-apply and scale stability across a rotation.
- `Bridge` — the polling loop of `main` as a classify-then-debounce fold.
- `Daemon` — the loop's requests applied in order to a layout.
- `SensorBridge` — `check_rotation_state` and the state-to-vector mapping of the
  virtual-accelerometer bridge.

Axis readings and scales are `real`; the infinite ends of the ranges are `Unbounded`.
Transforms and the configuration serial are `nat` (unsigned on the wire). The service
call, the serial port, device discovery and the input-device writes are not modelled;
where the source reads from the service, the model takes the value as a parameter
(the snapshot, the scale).

Three behaviours of the code shape the model:

- `main` catches only `KeyboardInterrupt`, so an error raised by `set_rotation`, in
  the rotation or in the write-back, ends the loop; `Daemon.ApplyAll` stops at the
  first failure of either.
- `apply_monitors_configuration` falls back to scale 1.0 per logical display, looking
  only at that display's monitors; other displays keep the requested scale.
- The decoder takes a monitor's modes from the LAST monitor-list entry with its
  connector (the lookup loop has no `break`), and sets no modes at all when there is
  none; reading them later raises. This is modelled as `Option` plus the errors
  `MissingModes` and `NoModes`.

## Model

| member | source | states |
|---|---|---|
| Classifier.FirstMatch | monitor_imu_rotate.py:21-29 | the scan returns None iff no range of the table holds the value, else the state of an entry holding it with no earlier entry holding it |
| Classifier.DetermineState | monitor_imu_rotate.py:15-29 | Landscape iff -100 <= v <= 100, LeftRotation iff v >= 800, RightRotation iff v <= -800, None iff v is in a dead zone (100 < v < 800 or -800 < v < -100) |
| Classifier.StateRangesUnambiguous | monitor_imu_rotate.py:15-19 | no value lies in two ranges of the table that name different states |
| Classifier.FirstMatchAnyEntry | monitor_imu_rotate.py:24-29 | in an unambiguous table any entry holding the value determines the result, wherever it sits |
| Classifier.FirstMatchOrderFree | monitor_imu_rotate.py:24-29 | scanning the same entries of an unambiguous table in another order gives the same result |
| Classifier.DetermineStateOrderFree | monitor_imu_rotate.py:15-29 | the classifier's result does not depend on the iteration order of its range table |
| Layout.LookupModes | monitor_imu_rotate.py:69-71 | the modes stored for a connector are those of the last monitor-list entry with that connector, or none when no entry has it |
| Layout.ModesOfUnique | monitor_imu_rotate.py:69-71 | that description of the stored modes admits exactly one value |
| Layout.UnpackCurrentState | monitor_imu_rotate.py:48-75 | serial kept; displays in order with x, y, scale, transform, primary kept; each monitor keeps connector, vendor, product, serial and gets the modes of the last matching list entry |
| Layout.FullyListedDecodesModes | monitor_imu_rotate.py:61-73 | when every display's monitor is listed and every entry has a mode, every decoded monitor has a current mode |
| Rotation.RotationCode | monitor_imu_rotate.py:134-141 | only normal, left, right, inverted are accepted, as codes 0, 1, 3, 6; any other name fails with InvalidRotation |
| Rotation.ResizeIsSwap | monitor_imu_rotate.py:154-165 | the width change is minus the height change; both are zero iff old and new transform are both in {0, 6} or both not, or the mode is square |
| Rotation.FirstMonitorFrom | monitor_imu_rotate.py:151-152 | the first monitor at or after the start with the connector, or None iff there is none |
| Rotation.FindTargetFrom | monitor_imu_rotate.py:150-177 | the first display at or after the start driving the connector and the first such monitor in it, or None iff no display drives it |
| Rotation.FindTarget | monitor_imu_rotate.py:150-180 | None iff no monitor of any display has the connector; otherwise the first display driving it and its first matching monitor |
| Rotation.ApplyRotation | monitor_imu_rotate.py:132-189 | fails with InvalidRotation on a bad name, with ConnectorNotFound iff no display drives the connector, and on a target monitor without modes; otherwise only the target's transform changes, displays strictly right (below) of it move by new minus old effective width (height), its own position, and every scale, primary flag and monitor list, stay |
| Rotation.Reposition | monitor_imu_rotate.py:158-189 | the target gets the new transform and keeps its corner; every display strictly right of (below) that corner moves by dw (dh); scales, primary flags, monitor lists and other transforms stay |
| RotationProperties.SameMonitorsSameTarget | monitor_imu_rotate.py:150-152 | the target search depends only on the displays' monitors |
| RotationProperties.RotationKeepsTarget | monitor_imu_rotate.py:150-189 | after a rotation the same display is the target and it carries the requested transform |
| RotationProperties.AlreadyRotatedIsIdentity | monitor_imu_rotate.py:154-189 | rotating a display to the transform it already has computes zero diffs and returns the layout unchanged |
| RotationProperties.ApplyRotationIdempotent | monitor_imu_rotate.py:154-189 | applying the same rotation twice gives the result of applying it once |
| RotationProperties.MoveThereAndBack | monitor_imu_rotate.py:182-189 | moving a shelf layout by (dw, dh) around a display and back by (-dw, -dh) restores it while the footprint stays positive |
| RotationProperties.RotateBackRestores | monitor_imu_rotate.py:132-189 | on a shelf layout, rotating a display and then rotating it back to its original transform restores the layout exactly |
| RotationProperties.RotatesBack | monitor_imu_rotate.py:154-189 | after a move by (dw, dh) around the target, rotating it back to its original transform succeeds and moves the layout by (-dw, -dh) |
| RotationProperties.LeftRotationExample | monitor_imu_rotate.py:154-189 | a 1920x1080 panel turned from 0 to 1 moves the display to its right by -840 and the display below it by +840, leaving the latter's x alone |
| Config.GetScale | monitor_imu_rotate.py:120-126 | at least 1.0, at least every display's scale, and equal to 1.0 or to some display's scale |
| Config.MarshalMonitors | monitor_imu_rotate.py:89-100 | succeeds iff every monitor has a current mode, then gives connector, current mode id and underscanning off per monitor; otherwise fails on the first monitor without one |
| Config.MarshalDisplays | monitor_imu_rotate.py:87-109 | succeeds iff every monitor of every display has a current mode, giving one entry per display in order |
| Config.ApplyMonitorsConfiguration | monitor_imu_rotate.py:84-116 | serial kept, method 1, per display x, y, transform, primary kept and the requested scale iff all its monitors' current modes list it, else 1.0; fails iff some monitor lacks a current mode |
| Config.SetRotation | monitor_imu_rotate.py:132-192 | rotation errors abort with the rotation's error; after a successful rotation the step succeeds iff every monitor of the rotated layout has a current mode, and then carries the snapshot's serial, method 1, and per display the rotated (shifted) x and y, the new transform, the primary flag, the requested scale where all its monitors support it (else 1.0), and per monitor its connector, current mode id and underscanning off |
| ConfigProperties.SetRotationToCurrentRewritesLayout | monitor_imu_rotate.py:154-192 | asking for the transform the panel already has writes back exactly the argument of applying the unrotated snapshot |
| ConfigProperties.SameScalesSameGetScale | monitor_imu_rotate.py:120-126 | the chosen scale depends only on the displays' scales |
| ConfigProperties.RotationKeepsScale | monitor_imu_rotate.py:120-126 | the scale chosen from the rotated layout equals the one chosen from the layout before it |
| ConfigProperties.FetchThenApply | monitor_imu_rotate.py:48-116 | a decoded, fully listed layout marshals successfully with its serial, positions, transforms, primary flags and connectors unchanged |
| ConfigProperties.UniformScaleReapplyIsNoOp | monitor_imu_rotate.py:84-126 | a layout already at one supported scale is written back with every display's geometry and scale unchanged |
| Bridge.Debounce | monitor_imu_rotate.py:231-244 | at most one request per reading; once something was requested, the last request is the rotation of the held orientation |
| Bridge.Watch | monitor_imu_rotate.py:194-244 | from no held orientation on the configured axis, an orientation is held iff some reading was outside the dead zone, and the last request is its rotation |
| Bridge.HeldIffSomeKnown | monitor_imu_rotate.py:231-244 | from no held orientation, the loop holds one iff some classified reading was known |
| Bridge.KnownReadingHeld | monitor_imu_rotate.py:234-244 | from no held orientation, one known reading is enough for an orientation to be held from then on |
| Bridge.QuietSuffix | monitor_imu_rotate.py:234 | dead-zone readings at the end of a run leave the held orientation and the requests as they were |
| Bridge.RequestsAreDebounced | monitor_imu_rotate.py:231-244 | every request is an accepted rotation name, no request repeats the previous one, and the last request is that of the held orientation |
| Bridge.HeldIsLastKnown | monitor_imu_rotate.py:231-244 | the held orientation is that of the last reading outside the dead zone, or the initial one if there was none |
| Bridge.QuietReading | monitor_imu_rotate.py:234 | a dead-zone reading, or one equal to the held orientation, requests nothing and changes nothing |
| Bridge.ChangedReading | monitor_imu_rotate.py:234-244 | a known reading different from the held orientation requests exactly its rotation and becomes held |
| Bridge.LevelLeftLevelExample | monitor_imu_rotate.py:231-244 | readings level, level, left, left, level request normal, left, normal |
| Daemon.ApplyAll | monitor_imu_rotate.py:84-244 | a successful run keeps every display's monitor list, and after at least one request every monitor has a current mode; when each step succeeds and where it fails are stated by the lemmas below |
| Daemon.NextStepIsSetRotation | monitor_imu_rotate.py:132-244 | after a successful run, appending a request succeeds iff the whole rotate-and-write-back step succeeds on the layout reached so far |
| Daemon.ApplyAllSucceeds | monitor_imu_rotate.py:132-244 | a run succeeds whenever the panel is present, every monitor has a current mode and every request names a rotation |
| Daemon.StepSucceeds | monitor_imu_rotate.py:132-192 | a layout with the monitors of a fully moded layout driving the panel rotates, keeps those monitors and writes back |
| Daemon.OneStepIsSetRotation | monitor_imu_rotate.py:132-192 | one step of the run succeeds iff the whole rotate-and-write-back step succeeds on the same layout |
| Daemon.WriteBackFailureExample | monitor_imu_rotate.py:89-100 | a second display whose monitor has no modes lets the panel rotate but ends the run at the write-back with MissingModes |
| Daemon.RunDaemon | monitor_imu_rotate.py:194-244 | a successful run keeps every display's monitor list; with no requests it returns the layout unchanged |
| Daemon.RunDaemonSucceeds | monitor_imu_rotate.py:194-244 | on a layout where the panel is present and every monitor has a current mode, the daemon never fails, whatever the readings |
| Daemon.RotatedTargetTransform | monitor_imu_rotate.py:150-180 | after a successful rotation the target display's transform is the requested code |
| Daemon.ApplyAllEndsInLastRequest | monitor_imu_rotate.py:231-244 | after a run of rotations without failure the target display carries the transform of the last request |
| Bridge.KnownReadingRequests | monitor_imu_rotate.py:195-244 | starting from no held orientation, any reading outside the dead zone leads to at least one request |
| Daemon.KnownReadingIsRequested | monitor_imu_rotate.py:231-244 | once a reading outside the dead zone was seen, an orientation is held, something was requested, and the last request is the held orientation's rotation |
| Bridge.HeldWithoutRequests | monitor_imu_rotate.py:234-244 | while nothing has been requested, the held orientation is the initial one |
| Daemon.DaemonFollowsHeldOrientation | monitor_imu_rotate.py:194-244 | when some reading was known and every rotation succeeded, the panel ends in the rotation of the last known orientation |
| SensorBridge.CheckRotationState | accel_sensor_bridge.py:11-46 | "Landscape" iff -100 <= x <= 100, "Left Rotation" iff x >= 800, "Right Rotation" iff x <= -800, "Unknown State" otherwise |
| SensorBridge.VectorFor | accel_sensor_bridge.py:98-110 | (0,-1000,0) iff landscape, (-1000,0,0) iff rotated left, (1000,0,0) iff rotated right, nothing iff the state is unknown |
| SensorBridge.IgnoresYAndZ | accel_sensor_bridge.py:35-46 | the result depends only on x, though the configured axis is y |
| SensorBridge.InvertedUnreachable | accel_sensor_bridge.py:39-46 | the classifier never returns "Landscape Inverted", so the inverted vector is never sent |
| SensorBridge.AgreesWithDaemonClassifier | accel_sensor_bridge.py:35-46 | the bridge's copy agrees with the daemon's table-driven classifier applied to x |

## Left out

- The D-Bus calls (`dbus_helper`, `get_current_state`, the `ApplyMonitorsConfig` call) and the GLib variant type strings: only the decoded reply and the call's argument are modelled.
- `set_scale`: a fetch followed by `apply_monitors_configuration`, with no logic of its own beyond what `Config.ApplyMonitorsConfiguration` models.
- Per-monitor and per-display property maps of the reply, and the always-empty options map of the apply call: they carry no logic.
- Device discovery through udev, opening the serial port, reading and parsing "x,y,z" lines: hardware input. A malformed line raises in the source; the model starts from parsed readings.
- The `UInput` device and `send_rotation` writes of the bridge: only the vector chosen is modelled.
- accel_proxy.py: a fixed sleep-and-emit test script without logic.
- Printing, `time.sleep` and the `KeyboardInterrupt` cleanup.
- Floating point: readings and scales are exact reals, so NaN and infinite readings are not modelled.
- The axis key: the model's axis is one of x, y, z, so the `KeyError` of another key cannot arise.
- Daemon.ApplyAll: the next rotation starts from the rotated layout as computed, which keeps each display's scale from before the write-back; the service would hold the written scale (the requested one or 1.0), and the source re-reads the layout before every rotation. The service's own acceptance of the argument is not modelled.
- Positions, sizes, the serial and transforms are unbounded `int`/`nat`; on the wire they are 32-bit signed or unsigned values, and packing an out-of-range value raises. The model does not bound them.
- Config.ApplyMonitorsConfiguration: on failure it names some monitor without a current mode, not necessarily the first one the source reaches (`Config.MarshalMonitors` does pin the first one within a display).
- Config.SetRotation: takes the scale as a parameter instead of re-reading it from the service; `ConfigProperties.RotationKeepsScale` shows that reading it from the rotated layout would give the same value.
