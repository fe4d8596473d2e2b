/** The virtual-accelerometer bridge: classify the x reading by its own copy of the
    range table and turn the result into the three-axis vector injected as a synthetic
    accelerometer event. */
module SensorBridge {
  import opened Wrappers
  import opened Classifier

  const LANDSCAPE_RANGE := Range(At(-100.0), At(100.0))
  const LEFT_ROTATION_RANGE := Range(At(800.0), Unbounded)
  const RIGHT_ROTATION_RANGE := Range(Unbounded, At(-800.0))

  /** A three-axis vector as injected into the input subsystem. */
  datatype Vector = Vector(x: int, y: int, z: int)

  const PORTRAIT_RIGHT := Vector(1000, 0, 0)
  const PORTRAIT_LEFT := Vector(-1000, 0, 0)
  const LANDSCAPE := Vector(0, -1000, 0)
  const LANDSCAPE_INVERTED := Vector(0, 1000, 0)

  /** The bridge's classifier. It is handed all three readings but consults only x. */
  function CheckRotationState(x: real, y: real, z: real): (state: string)
    ensures state == "Landscape" <==> -100.0 <= x <= 100.0
    ensures state == "Left Rotation" <==> x >= 800.0
    ensures state == "Right Rotation" <==> x <= -800.0
    ensures state == "Unknown State" <==> 100.0 < x < 800.0 || -800.0 < x < -100.0
  {
    if InRange(x, LANDSCAPE_RANGE) then "Landscape"
    else if InRange(x, LEFT_ROTATION_RANGE) then "Left Rotation"
    else if InRange(x, RIGHT_ROTATION_RANGE) then "Right Rotation"
    else "Unknown State"
  }

  /** The vector sent for a state name; None for a name the bridge only logs. */
  function RotationVector(state: string): (v: Option<Vector>) {
    if state == "Landscape" then Some(LANDSCAPE)
    else if state == "Left Rotation" then Some(PORTRAIT_LEFT)
    else if state == "Right Rotation" then Some(PORTRAIT_RIGHT)
    else if state == "Landscape Inverted" then Some(LANDSCAPE_INVERTED)
    else None
  }

  /** What the bridge sends for one reading. */
  function VectorFor(x: real, y: real, z: real): (v: Option<Vector>)
    ensures v == Some(LANDSCAPE) <==> -100.0 <= x <= 100.0
    ensures v == Some(PORTRAIT_LEFT) <==> x >= 800.0
    ensures v == Some(PORTRAIT_RIGHT) <==> x <= -800.0
    ensures v.None? <==> CheckRotationState(x, y, z) == "Unknown State"
  {
    RotationVector(CheckRotationState(x, y, z))
  }

  /** The y and z readings never matter: the bridge ignores its configured axis. */
  lemma IgnoresYAndZ(x: real, y: real, z: real, y': real, z': real)
    ensures CheckRotationState(x, y, z) == CheckRotationState(x, y', z')
    ensures VectorFor(x, y, z) == VectorFor(x, y', z')
  {
  }

  /** The inverted-landscape branch is dead: the classifier never names that state, so
      every reading sends one of the three other vectors or nothing. */
  lemma InvertedUnreachable(x: real, y: real, z: real)
    ensures CheckRotationState(x, y, z) != "Landscape Inverted"
    ensures VectorFor(x, y, z) in {Some(LANDSCAPE), Some(PORTRAIT_LEFT), Some(PORTRAIT_RIGHT), None}
  {
  }

  /** The name the bridge uses for each of the daemon's orientations. */
  function StateName(o: Option<Orientation>): string {
    match o
    case None => "Unknown State"
    case Some(Landscape) => "Landscape"
    case Some(LeftRotation) => "Left Rotation"
    case Some(RightRotation) => "Right Rotation"
  }

  /** The bridge's copy of the classifier agrees with the daemon's table-driven one
      applied to the x axis. */
  lemma AgreesWithDaemonClassifier(x: real, y: real, z: real)
    ensures CheckRotationState(x, y, z) == StateName(DetermineState(AxisSample(x, y, z), X))
  {
  }
}
