/** The orientation classifier of the rotation daemon: one axis reading is checked
    against a fixed table of inclusive ranges, in table order, and the first range
    holding it names the orientation. Readings outside every range are a dead zone. */
module Classifier {
  import opened Wrappers

  /** One end of an inclusive range; `Unbounded` stands for an infinite end. */
  datatype Bound = Unbounded | At(value: real)

  datatype Range = Range(lo: Bound, hi: Bound)

  /** `lo <= v <= hi`, where an unbounded end admits every value. */
  predicate InRange(v: real, r: Range) {
    (r.lo.Unbounded? || r.lo.value <= v) && (r.hi.Unbounded? || v <= r.hi.value)
  }

  datatype Orientation = Landscape | LeftRotation | RightRotation

  datatype Axis = X | Y | Z

  /** One accelerometer reading. */
  datatype AxisSample = AxisSample(x: real, y: real, z: real)

  function Read(sample: AxisSample, axis: Axis): real {
    match axis
    case X => sample.x
    case Y => sample.y
    case Z => sample.z
  }

  /** The axis the daemon consults. */
  const CONFIGURED_AXIS: Axis := Y

  datatype Entry = Entry(state: Orientation, range: Range)

  /** The range table, in the order the daemon scans it. */
  const STATE_RANGES: seq<Entry> := [
    Entry(Landscape, Range(At(-100.0), At(100.0))),
    Entry(LeftRotation, Range(At(800.0), Unbounded)),
    Entry(RightRotation, Range(Unbounded, At(-800.0)))
  ]

  /** The state of the first entry whose range holds `v`, or None when no range does. */
  function FirstMatch(table: seq<Entry>, v: real): (r: Option<Orientation>)
    ensures r.None? <==> forall i :: 0 <= i < |table| ==> !InRange(v, table[i].range)
    ensures r.Some? ==>
      exists i :: 0 <= i < |table| && InRange(v, table[i].range) && table[i].state == r.value
                  && forall k :: 0 <= k < i ==> !InRange(v, table[k].range)
  {
    if |table| == 0 then None
    else if InRange(v, table[0].range) then Some(table[0].state)
    else
      var r := FirstMatch(table[1..], v);
      assert forall i :: 1 <= i < |table| ==> table[i] == table[1..][i - 1];
      r
  }

  /** No reading lies in two ranges of the table that name different states. */
  ghost predicate Unambiguous(table: seq<Entry>) {
    forall i, j, v :: 0 <= i < |table| && 0 <= j < |table|
      && InRange(v, table[i].range) && InRange(v, table[j].range)
      ==> table[i].state == table[j].state
  }

  /** The daemon's classifier: the orientation of the configured axis's reading, or
      None in the dead zone. */
  function DetermineState(sample: AxisSample, axis: Axis): (r: Option<Orientation>)
    ensures var v := Read(sample, axis);
      && (r == Some(Landscape) <==> -100.0 <= v <= 100.0)
      && (r == Some(LeftRotation) <==> 800.0 <= v)
      && (r == Some(RightRotation) <==> v <= -800.0)
      && (r.None? <==> (100.0 < v < 800.0 || -800.0 < v < -100.0))
  {
    var v := Read(sample, axis);
    assert STATE_RANGES[1..][1..][1..] == [];
    assert FirstMatch(STATE_RANGES[2..], v) == if v <= -800.0 then Some(RightRotation) else None;
    assert FirstMatch(STATE_RANGES[1..], v)
      == if 800.0 <= v then Some(LeftRotation) else FirstMatch(STATE_RANGES[2..], v);
    FirstMatch(STATE_RANGES, v)
  }

  /** The table's three ranges are pairwise disjoint. */
  lemma StateRangesUnambiguous()
    ensures Unambiguous(STATE_RANGES)
  {
  }

  /** In an unambiguous table, any entry that holds the reading names the result,
      wherever it sits in the table. */
  lemma {:induction false} FirstMatchAnyEntry(table: seq<Entry>, v: real, i: nat)
    requires Unambiguous(table)
    requires i < |table| && InRange(v, table[i].range)
    ensures FirstMatch(table, v) == Some(table[i].state)
  {
    var r := FirstMatch(table, v);
    assert r.Some?;
    var k :| 0 <= k < |table| && InRange(v, table[k].range) && table[k].state == r.value;
    assert table[k].state == table[i].state;
  }

  /** Scanning the same entries in any other order gives the same classification. */
  lemma {:induction false} FirstMatchOrderFree(table: seq<Entry>, reordered: seq<Entry>, v: real)
    requires Unambiguous(table)
    requires forall e :: e in table <==> e in reordered
    ensures FirstMatch(reordered, v) == FirstMatch(table, v)
  {
    var r := FirstMatch(table, v);
    var r' := FirstMatch(reordered, v);
    if r.Some? {
      var i :| 0 <= i < |table| && InRange(v, table[i].range) && table[i].state == r.value;
      assert table[i] in reordered;
      var k :| 0 <= k < |reordered| && reordered[k] == table[i];
      assert r'.Some?;
      var k' :| 0 <= k' < |reordered| && InRange(v, reordered[k'].range) && reordered[k'].state == r'.value;
      assert reordered[k'] in table;
      var i' :| 0 <= i' < |table| && table[i'] == reordered[k'];
      assert table[i'].state == table[i].state;
    } else {
      forall k | 0 <= k < |reordered|
        ensures !InRange(v, reordered[k].range)
      {
        assert reordered[k] in table;
        var i :| 0 <= i < |table| && table[i] == reordered[k];
      }
    }
  }

  /** The daemon's result does not depend on the order in which its table is scanned. */
  lemma DetermineStateOrderFree(reordered: seq<Entry>, sample: AxisSample, axis: Axis)
    requires forall e :: e in STATE_RANGES <==> e in reordered
    ensures FirstMatch(reordered, Read(sample, axis)) == DetermineState(sample, axis)
  {
    StateRangesUnambiguous();
    FirstMatchOrderFree(STATE_RANGES, reordered, Read(sample, axis));
  }
}
