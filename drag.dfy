/** The drag state machine of the warehouse boxes (src/App.js, DraggableBox
    and the orbit controls of Warehouse): every mounted box has its own
    `dragging` and `dynamic` flags, and all boxes share the `draggingGlobal`
    flag that switches camera orbit off. Nothing stops two boxes from being
    dragged at once. */
module Drag {
  import opened Motion

  /** The local state of one DraggableBox. */
  datatype BoxFlags = BoxFlags(dragging: bool, dynamic: bool)

  /** The flags of every mounted box, in box-list order, and the shared flag. */
  datatype DragState = DragState(flags: seq<BoxFlags>, draggingGlobal: bool)

  /** The body type a box asks the physics engine for. */
  datatype BodyType = KinematicPosition | Dynamic

  /** A box as it mounts: not held, and not yet released. */
  const Mounted := BoxFlags(false, false)

  /** The pointer button that starts a drag (the main button). */
  const PrimaryButton: int := 0

  /** The colour of a held box, and the colour every box is given otherwise. */
  const HeldColour := "red"
  const BoxColour := "#ff9800"

  predicate AnyDragging(flags: seq<BoxFlags>)
  {
    exists k :: 0 <= k < |flags| && flags[k].dragging
  }

  /** Whenever some box is held, the shared flag is raised. */
  predicate Consistent(d: DragState)
  {
    AnyDragging(d.flags) ==> d.draggingGlobal
  }

  /** The pointer-down handler of box `i`: the primary button puts the box
      in drag mode with gravity off and raises the shared flag; any other
      button changes nothing. */
  function PointerDown(d: DragState, i: nat, button: int): (d': DragState)
    requires i < |d.flags|
    ensures |d'.flags| == |d.flags|
    ensures button == PrimaryButton ==>
              && d'.flags[i].dragging && !d'.flags[i].dynamic && d'.draggingGlobal
              && forall k :: 0 <= k < |d.flags| && k != i ==> d'.flags[k] == d.flags[k]
    ensures button != PrimaryButton ==> d' == d
    ensures Consistent(d) ==> Consistent(d')
  {
    if button == PrimaryButton then DragState(d.flags[i := BoxFlags(true, false)], true) else d
  }

  /** What the mouse-up listener of one box does to its own flags: a held box
      is let go and handed back to the physics engine; any other box keeps
      its flags. */
  function Release(f: BoxFlags): (g: BoxFlags)
    ensures !g.dragging
    ensures f.dragging ==> g.dynamic
    ensures !f.dragging ==> g == f
  {
    if f.dragging then BoxFlags(false, true) else f
  }

  /** A mouse-up anywhere in the window reaches the listener of every
      mounted box. Each held box is released and lowers the shared flag; when
      no box is held nothing changes, so the shared flag stays as it was. */
  function MouseUp(d: DragState): (d': DragState)
    ensures |d'.flags| == |d.flags|
    ensures forall k :: 0 <= k < |d.flags| ==> d'.flags[k] == Release(d.flags[k])
    ensures !AnyDragging(d'.flags)
    ensures d'.draggingGlobal <==> d.draggingGlobal && !AnyDragging(d.flags)
    ensures !AnyDragging(d.flags) ==> d' == d
    ensures Consistent(d')
  {
    if AnyDragging(d.flags) then
      DragState(seq(|d.flags|, k requires 0 <= k < |d.flags| => Release(d.flags[k])), false)
    else
      d
  }

  /** The frame callback of box `i`, given the translation the physics engine
      reports and the point the pointer ray meets the floor plane at. It
      writes a next translation only while the box is held and its body
      exists; that translation keeps the height and closes a fifth of the
      horizontal gap to the target. */
  function FrameStep(d: DragState, i: nat, bodyReady: bool, current: Vec3, target: Vec3): (next: Option<Vec3>)
    requires i < |d.flags|
    ensures next.Some? <==> d.flags[i].dragging && bodyReady
    ensures next.Some? ==>
              && next.value.y == current.y
              && next.value.x - target.x == Decay * (current.x - target.x)
              && next.value.z - target.z == Decay * (current.z - target.z)
  {
    if d.flags[i].dragging && bodyReady then Some(DragStep(current, target)) else None
  }

  /** The body type requested for a box: kinematic exactly while it is held,
      dynamic otherwise whatever its `dynamic` flag says. */
  function BodyTypeOf(f: BoxFlags): (t: BodyType)
    ensures t == KinematicPosition <==> f.dragging
    ensures t == Dynamic <==> !f.dragging
  {
    if f.dragging then KinematicPosition else if f.dynamic then Dynamic else Dynamic
  }

  /** The mesh colour of a box given the colour it was created with: red
      whenever it is held, and exactly while it is held as long as its own
      colour is not red. */
  function MeshColour(f: BoxFlags, colour: string): (c: string)
    ensures f.dragging ==> c == HeldColour
    ensures colour != HeldColour ==> (c == HeldColour <==> f.dragging)
    ensures !f.dragging ==> c == colour
  {
    if f.dragging then HeldColour else colour
  }

  /** Camera orbit is enabled exactly when the shared flag is down, so in a
      consistent state never while a box is held. */
  function OrbitEnabled(d: DragState): (e: bool)
    ensures e <==> !d.draggingGlobal
    ensures Consistent(d) && e ==> !AnyDragging(d.flags)
  {
    !d.draggingGlobal
  }
}
