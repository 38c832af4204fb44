/** The Warehouse component and its DraggableBox children (src/App.js) as
    one object whose fields are the page's state and whose methods are the
    event handlers, each proved against the matching transition of Scene. */
module WarehouseApp {
  import opened Motion
  import opened Ledger
  import opened Drag
  import opened Scene

  class Warehouse {
    var stored: int
    var sold: int
    var boxes: seq<Box>
    /** The local flags of the DraggableBox mounted for each box, in order. */
    var flags: seq<BoxFlags>
    var draggingGlobal: bool
    /** How many times addItem has run. */
    ghost var adds: nat

    /** The page state these fields hold. */
    ghost function Snapshot(): World
      reads this
    {
      World(Store(Inventory(stored, sold), boxes), DragState(flags, draggingGlobal))
    }

    /** The scene invariant, plus conservation: every unit ever in stock is
        still stored or has been sold. */
    ghost predicate Valid()
      reads this
    {
      Scene.Valid(Snapshot()) && stored + sold == InitialStock + adds
    }

    /** Mounting the page with the draws for its first five boxes. */
    constructor (spawns: seq<Spawn>)
      requires |spawns| == InitialStock && forall k :: 0 <= k < |spawns| ==> IsSpawn(spawns[k])
      ensures Valid() && Snapshot() == Init(spawns) && adds == 0
    {
      stored, sold := InitialStock, 0;
      boxes := seq(InitialStock, k requires 0 <= k < InitialStock => NewBox(spawns[k]));
      flags := seq(InitialStock, _ => Mounted);
      draggingGlobal := false;
      adds := 0;
    }

    /** addItem, and the DraggableBox that mounts for the new box. */
    method AddItem(sp: Spawn)
      requires Valid() && IsSpawn(sp)
      modifies this
      ensures Valid() && Snapshot() == Step(old(Snapshot()), AddClick(sp))
      ensures adds == old(adds) + 1 && sold == old(sold)
    {
      stored := stored + 1;
      boxes := boxes + [NewBox(sp)];
      flags := flags + [Mounted];
      adds := adds + 1;
    }

    /** sellItem: refused with nothing stored; otherwise one unit is sold and
        the last box, with its DraggableBox, goes away. */
    method SellItem()
      requires Valid()
      modifies this
      ensures Valid() && Snapshot() == Step(old(Snapshot()), SellClick)
      ensures adds == old(adds) && sold >= old(sold)
    {
      if stored > 0 {
        stored, sold := stored - 1, sold + 1;
        boxes := boxes[..|boxes| - 1];
        flags := flags[..|flags| - 1];
      }
    }

    /** The pointer-down handler of box `i`. */
    method PointerDown(i: nat, button: int)
      requires Valid() && i < |flags|
      modifies this
      ensures Valid() && Snapshot() == Step(old(Snapshot()), PointerDownOn(i, button))
      ensures adds == old(adds)
    {
      if button == PrimaryButton {
        flags := flags[i := BoxFlags(true, false)];
        draggingGlobal := true;
      }
    }

    /** A mouse-up on the window runs the listener of every mounted box in
        turn; each held box lets go and lowers the shared flag. */
    method MouseUp()
      requires Valid()
      modifies this
      ensures Valid() && Snapshot() == Step(old(Snapshot()), WindowMouseUp)
      ensures adds == old(adds)
    {
      var k := 0;
      while k < |flags|
        invariant 0 <= k <= |flags| == |old(flags)|
        invariant forall j :: 0 <= j < k ==> flags[j] == Release(old(flags)[j])
        invariant forall j :: k <= j < |flags| ==> flags[j] == old(flags)[j]
        invariant draggingGlobal == (old(draggingGlobal) && !AnyDragging(old(flags)[..k]))
        invariant stored == old(stored) && sold == old(sold) && boxes == old(boxes) && adds == old(adds)
      {
        if flags[k].dragging {
          flags := flags[k := BoxFlags(false, true)];
          draggingGlobal := false;
        }
        assert old(flags)[..k + 1] == old(flags)[..k] + [old(flags)[k]];
        k := k + 1;
      }
      assert old(flags)[..k] == old(flags);
      if !AnyDragging(old(flags)) {
        assert flags == old(flags);
      }
    }

    /** The frame callback of box `i`: returns the translation it writes to
        the box's body, if any. Nothing of the page's state changes. */
    method Frame(i: nat, bodyReady: bool, current: Vec3, target: Vec3) returns (next: Option<Vec3>)
      requires i < |flags|
      ensures next == FrameStep(DragState(flags, draggingGlobal), i, bodyReady, current, target)
      ensures next.Some? <==> flags[i].dragging && bodyReady
      ensures next.Some? ==> next.value.y == current.y
    {
      if flags[i].dragging && bodyReady {
        next := Some(Vec3(Lerp(current.x, target.x, Alpha), current.y, Lerp(current.z, target.z, Alpha)));
      } else {
        next := None;
      }
    }
  }
}
