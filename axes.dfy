/**
 * Layout directions and axes of a container. In a `row` container items are
 * laid out along X (the A axis) and share the Y band (the B axis); in a
 * `column` container it is the other way round.
 */
module Axes {
  datatype Axis = X | Y
  datatype Direction = Row | Column

  /** The layout axis A and the cross axis B of a direction (`axis_map`). */
  datatype AxisPair = AxisPair(A: Axis, B: Axis)

  /** `axisB`: the other axis. */
  function AxisB(axis: Axis): (b: Axis)
    ensures b != axis
  {
    if axis == X then Y else X
  }

  /** `axisAB`: a row lays out along X, anything else along Y. */
  function AxisAB(direction: Direction): (ab: AxisPair)
    ensures ab.A != ab.B && ab.B == AxisB(ab.A)
    ensures ab.A == X <==> direction == Row
  {
    if direction == Row then AxisPair(X, Y) else AxisPair(Y, X)
  }

  /**
   * `dir_changed`: the direction is `row` unless only the `column` flag is
   * set; with both flags `row` wins.
   */
  function DirectionOf(row: bool, column: bool): (d: Direction)
    ensures d == Column <==> column && !row
  {
    if row then Row else if column then Column else Row
  }

  /**
   * `lock_dir_changed`: a locked container drags along its layout axis only,
   * an unlocked one along both axes.
   */
  function AxesFor(lock: bool, direction: Direction): (axes: seq<Axis>)
    ensures lock ==> axes == [AxisAB(direction).A]
    ensures !lock ==> axes == [X, Y]
  {
    if lock && direction == Row then [X]
    else if lock && direction == Column then [Y]
    else [X, Y]
  }

  /** The axes a container may hold: one of the three `lock_dir_changed` results. */
  predicate AxesShape(axes: seq<Axis>)
  {
    axes == [X] || axes == [Y] || axes == [X, Y]
  }

  lemma AxesForShape(lock: bool, direction: Direction)
    ensures AxesShape(AxesFor(lock, direction))
    ensures |AxesFor(lock, direction)| > 0
  {
  }

  /** The cross axis of the cross axis is the axis itself. */
  lemma AxisBInvolution(axis: Axis)
    ensures AxisB(AxisB(axis)) == axis
  {
  }
}
