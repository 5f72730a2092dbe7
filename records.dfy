/**
 * The records the reorder engine keeps: the item record of every registered
 * element (`mono.items`) and the container (`<mv-sorter>`) with its own
 * state (`this.mv` plus the reflected properties).
 */
module Records {
  import opened Wrappers
  import opened Axes
  import opened Geometry

  /** A DOM element, as an opaque identity. */
  type Elem = nat

  /** Animation slot names: `pos{axis}`, `rotate{axis}` and `scale`. */
  datatype Slot = Pos(axis: Axis) | Rotate(axis: Axis) | Scale

  /** The step installed in a slot; `ScaleTo` carries its duration in milliseconds. */
  datatype Step = PosDrag(axis: Axis) | PosFall(axis: Axis) | RotateRecover(axis: Axis) | ScaleTo(duration: nat)

  /**
   * The record of a registered element: both axis states, the grab flags,
   * its own animation queue (slot to step), the containers nested inside
   * it, and its current home: the container and index in that container's
   * `homes` (`idx` is null after `reset` found the element detached).
   */
  datatype Item = Item(
    X: AxisState, Y: AxisState,
    grabbed: bool, throwed: bool,
    slots: map<Slot, Step>,
    childrenContainers: set<Container>,
    idx: Option<nat>, container: Container,
    handle: Option<Elem>)
  {
    function At(axis: Axis): AxisState
    {
      if axis == Axes.X then this.X else this.Y
    }

    function With(axis: Axis, s: AxisState): (r: Item)
      ensures r.At(axis) == s && r.At(AxisB(axis)) == At(AxisB(axis))
    {
      if axis == Axes.X then this.(X := s) else this.(Y := s)
    }

    /** Both axes at their resting place (`X.pos == X.pos_home && Y.pos == Y.pos_home`). */
    predicate AtHome()
    {
      this.X.AtHome() && this.Y.AtHome()
    }

    /** The record without its animation queue. */
    function Core(): Item
    {
      this.(slots := map[])
    }

    /** Both axes moving towards their resting place. */
    predicate Settled()
    {
      this.X.Settled() && this.Y.Settled()
    }
  }

  /** A fresh record for an element registered at index `idx` of `c` (`add_item`). */
  function NewItem(c: Container, idx: nat): (it: Item)
    ensures !it.grabbed && !it.throwed && it.slots == map[] && it.childrenContainers == {}
    ensures it.idx == Some(idx) && it.container == c && it.handle == None
    ensures it.X == Rest && it.Y == Rest
  {
    Item(Rest, Rest, false, false, map[], {}, Some(idx), c, None)
  }

  /** Whether a group name counts as set (`!group` is true for a missing or empty one). */
  predicate HasGroup(group: Option<string>)
  {
    group.Some? && group.value != ""
  }

  /**
   * A `<mv-sorter>` container: its reflected attributes (`row`, `column`,
   * `lock`, `group`, `disabled`), the direction and drag axes derived from
   * them, whether it has an `offsetParent` (`visible`), and the element
   * children the DOM holds (`children`, fixed: the DOM changes the engine
   * makes are modelled on values). The state the reorder engine keeps
   * for it (`homes`, `parent_target`, the measured box) is held by the
   * shared state, keyed by the container.
   */
  class Container {
    var row: bool
    var column: bool
    var lock: bool
    var group: Option<string>
    var disabled: bool
    var visible: bool
    const children: seq<Elem>
    /** `mv.direction`. */
    var direction: Direction
    /** `mv.axes`. */
    var axes: seq<Axis>

    constructor (row: bool, column: bool, lock: bool, group: Option<string>, disabled: bool,
                 visible: bool, children: seq<Elem>)
      ensures this.row == row && this.column == column && this.lock == lock
      ensures this.group == group && this.disabled == disabled && this.visible == visible
      ensures this.children == children
      ensures direction == DirectionOf(row, column)
      ensures axes == AxesFor(lock, direction) && Valid()
    {
      this.row, this.column, this.lock := row, column, lock;
      this.group, this.disabled, this.visible := group, disabled, visible;
      this.children := children;
      new;
      DirChanged();
      LockDirChanged();
    }

    /** `dir_changed`: recompute the direction from the `row` and `column` flags. */
    method DirChanged()
      modifies this`direction
      ensures direction == DirectionOf(row, column)
    {
      var dir := Row;
      if column {
        dir := Column;
      }
      if row {
        dir := Row;
      }
      direction := dir;
    }

    /** `lock_dir_changed`: recompute the drag axes from `lock` and the direction. */
    method LockDirChanged()
      modifies this`axes
      ensures axes == AxesFor(lock, direction) && Valid()
    {
      if lock && direction == Row {
        axes := [Axes.X];
      } else if lock && direction == Column {
        axes := [Axes.Y];
      } else {
        axes := [Axes.X, Axes.Y];
      }
    }

    /** The drag axes are one of the three `lock_dir_changed` results. */
    ghost predicate Valid()
      reads this`axes
    {
      AxesShape(axes)
    }

    function AB(): AxisPair
      reads this`direction
    {
      AxisAB(direction)
    }
  }
}
