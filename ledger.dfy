/** The inventory ledger of the warehouse (src/App.js, Warehouse): the
    `{stored, sold}` counter pair and the ordered list of boxes on the floor,
    which addItem and sellItem keep in lock-step. */
module Ledger {

  /** The three Math.random() draws that place one new box: its id and the
      two draws behind its horizontal coordinates, each in [0, 1). */
  datatype Spawn = Spawn(id: real, r: real, s: real)

  /** One entry of the box list: the box's id and the position it is spawned at. */
  datatype Box = Box(id: real, x: real, y: real, z: real)

  datatype Inventory = Inventory(stored: int, sold: int)

  /** The two pieces of Warehouse state the ledger owns. */
  datatype Store = Store(inventory: Inventory, boxes: seq<Box>)

  /** Units in stock, and boxes on the floor, when the warehouse mounts. */
  const InitialStock: nat := 5

  /** Every box is spawned at this height above the floor. */
  const SpawnHeight: real := 1.0

  predicate IsDraw(v: real)
  {
    0.0 <= v < 1.0
  }

  /** The draws a real Math.random() can produce. */
  predicate IsSpawn(sp: Spawn)
  {
    IsDraw(sp.id) && IsDraw(sp.r) && IsDraw(sp.s)
  }

  /** The strip of floor a box is spawned over: x in [-1.5, 1.5), z in [-1, 1),
      at spawn height. */
  predicate InSpawnArea(b: Box)
  {
    b.y == SpawnHeight && -1.5 <= b.x < 1.5 && -1.0 <= b.z < 1.0
  }

  /** The box a spawn places: x from the first coordinate draw scaled to
      [-1.5, 1.5), z from the second scaled to [-1, 1). The draws can be read
      back from the position, so distinct draws give distinct positions. */
  function NewBox(sp: Spawn): (b: Box)
    ensures b.id == sp.id && b.y == SpawnHeight
    ensures sp.r == (b.x + 1.5) / 3.0 && sp.s == (b.z + 1.0) / 2.0
    ensures IsSpawn(sp) ==> InSpawnArea(b)
  {
    Box(sp.id, sp.r * 3.0 - 1.5, SpawnHeight, sp.s * 2.0 - 1.0)
  }

  /** The ledger invariant: counters are never negative, there is exactly one
      box per stored unit, and every box lies in the spawn area. */
  predicate Valid(st: Store)
  {
    && st.inventory.stored >= 0
    && st.inventory.sold >= 0
    && |st.boxes| == st.inventory.stored
    && forall k :: 0 <= k < |st.boxes| ==> InSpawnArea(st.boxes[k])
  }

  /** The state Warehouse mounts with: five units stored, none sold, and one
      box per spawn. */
  function Initial(spawns: seq<Spawn>): (st: Store)
    requires |spawns| == InitialStock
    ensures st.inventory == Inventory(5, 0)
    ensures |st.boxes| == 5
    ensures forall k :: 0 <= k < 5 ==> st.boxes[k] == NewBox(spawns[k])
    ensures (forall k :: 0 <= k < 5 ==> IsSpawn(spawns[k])) ==> Valid(st)
  {
    Store(Inventory(InitialStock, 0), seq(InitialStock, k requires 0 <= k < InitialStock => NewBox(spawns[k])))
  }

  /** addItem: one more unit stored, sold untouched, and exactly one new box
      appended after all the earlier ones, which are unchanged. */
  function AddItem(st: Store, sp: Spawn): (st': Store)
    ensures st'.inventory.stored == st.inventory.stored + 1
    ensures st'.inventory.sold == st.inventory.sold
    ensures |st'.boxes| == |st.boxes| + 1
    ensures st'.boxes[..|st.boxes|] == st.boxes
    ensures st'.boxes[|st.boxes|] == NewBox(sp)
    ensures Valid(st) && IsSpawn(sp) ==> Valid(st')
  {
    Store(Inventory(st.inventory.stored + 1, st.inventory.sold), st.boxes + [NewBox(sp)])
  }

  /** JavaScript's `slice(0, -1)`: everything but the last element, and the
      empty array for the empty array. */
  function DropLast<T>(s: seq<T>): (r: seq<T>)
    ensures |s| > 0 ==> |r| == |s| - 1 && r + [s[|s| - 1]] == s
    ensures |s| == 0 ==> r == []
  {
    if |s| == 0 then [] else s[..|s| - 1]
  }

  /** sellItem: when something is stored, one unit moves from stored to sold
      and the last box (the most recently added) leaves the list; otherwise
      nothing changes. */
  function SellItem(st: Store): (st': Store)
    ensures st.inventory.stored > 0 ==>
              st'.inventory == Inventory(st.inventory.stored - 1, st.inventory.sold + 1)
    ensures st.inventory.stored > 0 && |st.boxes| > 0 ==>
              |st'.boxes| == |st.boxes| - 1 && st'.boxes + [st.boxes[|st.boxes| - 1]] == st.boxes
    ensures st.inventory.stored <= 0 ==> st' == st
    ensures Valid(st) ==> Valid(st')
  {
    if st.inventory.stored > 0 then
      Store(Inventory(st.inventory.stored - 1, st.inventory.sold + 1), DropLast(st.boxes))
    else
      st
  }

  /** Boxes leave in LIFO order: selling right after adding removes exactly
      the box just added, and the stock and box list are as before the add. */
  lemma SellUndoesAdd(st: Store, sp: Spawn)
    requires st.inventory.stored >= 0
    ensures SellItem(AddItem(st, sp)).boxes == st.boxes
    ensures SellItem(AddItem(st, sp)).inventory == Inventory(st.inventory.stored, st.inventory.sold + 1)
  {
    var added := AddItem(st, sp);
    assert added.boxes[..|st.boxes|] == st.boxes;
  }
}
