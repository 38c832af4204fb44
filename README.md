# warehouse-3d: inventory ledger and box dragging in Dafny

This project models the two state machines of the warehouse page in
`src/App.js`, a React / three.js / Rapier scene.

- **The inventory ledger** (`Warehouse`). It holds the counters
  `{stored, sold}` and the ordered list of boxes. The page mounts with five
  units stored, none sold, and five boxes at height 1. `addItem` stores one
  more unit and appends a box at a random spot. When something is stored,
  `sellItem` moves one unit from stored to sold and drops the last box from the
  list. Otherwise it does nothing.
- **Dragging a box** (`DraggableBox`). Each mounted box has its own
  `dragging` and `dynamic` flags. All boxes share one `draggingGlobal` flag,
  which turns camera orbit off.
  - A primary-button pointer-down on a box puts that box in drag mode.
  - A mouse-up anywhere in the window reaches every mounted box's listener.
    Each box that is held lets go.
  - While a box is held, every frame writes a kinematic translation for it.
    That translation keeps the height and closes a fifth of the horizontal
    gap to the point where the pointer ray meets the floor plane.
  - A held box asks for a kinematic body and is drawn red.

Modules:

- `Ledger` (ledger.dfy): the counters, the box list, `addItem` and `sellItem`,
  written as functions on values.
- `Motion` (motion.dfy): the frame step over `real` and its convergence.
- `Drag` (drag.dfy): the drag flags of every box plus the shared flag, the
  pointer-down, mouse-up and frame handlers, and the derived body type,
  colour and orbit switch.
- `Scene` (scene.dfy): the whole page as one value (`World`) driven by a
  sequence of events. It also holds the invariants over every event sequence
  and the worked scenarios.
- `WarehouseApp` (warehouse.dfy): the page as a class. Its fields are the
  counters, the box list, the per-box flags and the shared flag. Its
  methods are the event handlers. Each of `AddItem`, `SellItem`,
  `PointerDown` and `MouseUp` is proved to perform the matching `Scene.Step`.
  `Scene` has no frame event, because a frame changes no page state, so
  `Frame` is proved against `Drag.FrameStep` instead.

Modelling choices:

- React state updates are treated as immediate, sequential transitions.
  So the read of `inventory.stored` at src/App.js:94 sees the current state.
- Each `Math.random()` draw is a parameter in [0, 1), carried in `Spawn`.
- The pointer-ray target is a parameter. The code does not check what
  `intersectPlane` returns (src/App.js:33). So a frame whose ray misses the
  plane is not skipped: the step still moves toward whatever target it is
  given. The target vector `pos` starts as (0, 0, 0) (src/App.js:32), and
  three.js leaves it unwritten when the ray misses, so a miss pulls the box
  toward the world origin. That is the step with target (0, 0, 0).
- The `rigidRef.current` test in the frame callback is the parameter
  `bodyReady`.
- Adding a box mounts a fresh `DraggableBox`, with both flags false.
  Selling unmounts the last one, taking its flags and its mouse-up listener
  with it. Nothing lowers `draggingGlobal` when that happens. As a result,
  selling the held box leaves camera orbit off after the mouse is released,
  with no box held. `Scene.SellingHeldBoxLeavesOrbitOff` proves this for any
  page whose last box is the only one held, and
  `Scene.OrbitStaysOffAfterSellingHeldBox` shows it on the mounted page. It is
  why the invariant is one-way: a held box implies the shared
  flag, but not the converse.
- There is no mutual exclusion between boxes, as in the code.
  `Scene.TwoBoxesHeld` shows that two boxes can be held at once.

## Model

| member | source | states |
|---|---|---|
| `Ledger.NewBox` | src/App.js:86-89 | a new box is at height 1; its id and both coordinate draws can be read back from it; with draws in [0, 1) it lies in x ∈ [-1.5, 1.5), z ∈ [-1, 1) |
| `Ledger.Initial` | src/App.js:74-80 | the ledger mounts with 5 stored, 0 sold and one box per spawn; with draws in [0, 1) it satisfies the ledger invariant |
| `Ledger.AddItem` | src/App.js:84-90 | stored grows by exactly 1 and sold is unchanged; exactly one box, the new one, is appended after the unchanged earlier boxes; the ledger invariant is kept |
| `Ledger.DropLast` | src/App.js:96 | `slice(0, -1)` removes exactly the last element, and gives the empty list back for the empty list |
| `Ledger.SellItem` | src/App.js:93-98 | with stock, one unit moves from stored to sold and exactly the last box is removed, leaving the prefix unchanged; with no stock, nothing changes; the ledger invariant is kept |
| `Ledger.SellUndoesAdd` | src/App.js:84-97 | LIFO: a sale right after an add removes exactly the box just added and restores the stock, and sold rises by one |
| `Motion.Lerp` | src/App.js:37-39 | lerp with factor t leaves (1 − t) of the offset to the target |
| `Motion.DragStep` | src/App.js:35-40 | the next translation keeps y, and each of x and z satisfies next − target = 0.8 · (current − target) |
| `Motion.StepContracts` | src/App.js:36-40 | one frame never overshoots: each horizontal coordinate ends between its old value and the target; the distance to the target shrinks to 0.8 of itself on each axis, strictly on any axis not already at the target |
| `Motion.DecayBound` | src/App.js:37-39 | 0 < 0.8ⁿ ≤ 1 and 0.8ⁿ · (1 + n/4) ≤ 1, so the leftover offset fraction tends to zero |
| `Motion.FramesOffset` | src/App.js:27-41 | after n successive steps toward a fixed target, each starting from the translation the previous one wrote, the height is unchanged and each horizontal offset is exactly 0.8ⁿ times the initial one |
| `Motion.FramesConverge` | src/App.js:27-41 | after n successive steps, each starting from the translation the previous one wrote, each horizontal offset is at most the initial one divided by 1 + n/4, and it stays on the initial side of the target |
| `Motion.FramesReach` | src/App.js:27-41 | for every tolerance ε > 0, some number of successive steps, each starting from the translation the previous one wrote, brings both horizontal coordinates within ε of the target |
| `Drag.PointerDown` | src/App.js:55-61 | a primary-button press sets that box's `dragging` and clears its `dynamic`, raises `draggingGlobal` and leaves the other boxes alone; any other button changes nothing; consistency is kept |
| `Drag.Release` | src/App.js:16-21 | a box's mouse-up listener lets a held box go and makes it dynamic; a box that is not held is unchanged |
| `Drag.MouseUp` | src/App.js:15-25 | after a window mouse-up no box is held, and every box is as its own listener leaves it; the shared flag ends up raised exactly when it was raised and no box was held; with no box held nothing changes |
| `Drag.FrameStep` | src/App.js:27-41 | a frame writes a translation exactly when the box is held and its body exists; that translation keeps y and contracts x and z toward the target by 0.8 |
| `Drag.BodyTypeOf` | src/App.js:50 | the body is `kinematicPosition` exactly while the box is held, and `dynamic` otherwise, whatever the `dynamic` flag says |
| `Drag.MeshColour` | src/App.js:65 | a held box is always drawn red; a box with a colour other than red is drawn red exactly while it is held, and in its own colour otherwise |
| `Drag.OrbitEnabled` | src/App.js:127 | orbit is enabled exactly when `draggingGlobal` is down, so in a consistent state never while a box is held |
| `Scene.Init` | src/App.js:74-81 | the page mounts with the initial ledger (5 stored, 0 sold, box k spawned from draw k), 5 boxes that are neither held nor released, and orbit on; with draws in [0, 1) it satisfies the invariant |
| `Scene.Step` | src/App.js:16-97 | pointer and mouse-up events leave the ledger alone; no event lowers sold; a sale with stock keeps the shared flag and the flags of every box but the last; every event keeps the invariant (ledger invariant, one flag pair per box, a held box implies the shared flag) |
| `Scene.StepMountsAndMisses` | src/App.js:55-89 | an add click performs `addItem` and mounts one fresh, unheld box at the end, keeping the shared flag; a pointer-down past the last box changes nothing |
| `Scene.RunPreserves` | src/App.js:74-97 | any event sequence keeps the invariant, never lowers sold, and raises stored + sold by exactly the number of add clicks |
| `Scene.Reachable` | src/App.js:74-127 | from the mounted page, after any events: stored ≥ 0, box count = stored, stored + sold = 5 + number of add clicks, and orbit is off while a box is held |
| `Scene.DragEventsKeepStore` | src/App.js:9-69 | pointer-down and mouse-up sequences never change the counters or the box list |
| `Scene.SellWithoutStockIsNoOp` | src/App.js:94 | a sale with nothing stored leaves the whole page unchanged |
| `Scene.SellsSaturate` | src/App.js:93-97 | n sales lower stored to max(stored − n, 0) and raise sold by min(n, stored), keeping the invariant |
| `Scene.InventoryScenario` | src/App.js:74-97 | 5/0 → add → 6/0 with 6 boxes → three sales → 3/3 with 3 boxes → three more → 0/6 with no boxes → a further sale changes nothing |
| `Scene.DragScenario` | src/App.js:16-65 | pressing a box makes it kinematic and red and turns orbit off; a mouse-up then makes it dynamic in its own colour and turns orbit on |
| `Scene.TwoBoxesHeld` | src/App.js:55-61 | two primary presses on two boxes leave both held, and one mouse-up releases both and turns orbit on |
| `Scene.OrbitStaysOffAfterSellingHeldBox` | src/App.js:15-24 | pressing the last of the five mounted boxes, selling it and releasing the mouse leaves no box held, yet orbit stays off |
| `Scene.SellingHeldBoxLeavesOrbitOff` | src/App.js:15-24 | on any valid page with stock whose last box is the only one held, a sale and then a mouse-up leave no box held, yet orbit stays off |
| `WarehouseApp.Warehouse.constructor` | src/App.js:74-81 | the fields hold the mounted page (`Scene.Init`), and conservation holds with zero adds |
| `WarehouseApp.Warehouse.AddItem` | src/App.js:84-90 | the fields undergo exactly `Scene.Step` for an add click; the invariant and conservation are kept; sold is unchanged |
| `WarehouseApp.Warehouse.SellItem` | src/App.js:93-98 | the fields undergo exactly `Scene.Step` for a sell click; the invariant and conservation are kept; sold does not fall |
| `WarehouseApp.Warehouse.PointerDown` | src/App.js:55-61 | the fields undergo exactly `Scene.Step` for a pointer-down on box i; the invariant is kept |
| `WarehouseApp.Warehouse.MouseUp` | src/App.js:15-25 | the loop over every box's listener leaves the fields exactly as `Scene.Step` does for a mouse-up; the invariant is kept |
| `WarehouseApp.Warehouse.Frame` | src/App.js:27-42 | returns the translation `Drag.FrameStep` writes: present exactly while box i is held and its body exists, at the same height |

## Left out

- React rendering, hooks, JSX, CSS and the two buttons (src/App.js:100-141) are UI plumbing. The button clicks appear only as the `AddClick` and `SellClick` events.
- Registering and removing the mouse-up listener (src/App.js:23-24) is browser I/O. Mouse-up is an explicit event that reaches every mounted box.
- The three.js `Raycaster`, `Plane` and `intersectPlane` (src/App.js:29-33) are a foreign library. The target point is a parameter. A ray that misses the plane leaves `pos` at (0, 0, 0), which is the case where the target is the origin.
- The Rapier physics is not modelled: gravity, restitution, friction, collisions, the fixed floor (src/App.js:106-113) and the motion of a released box. The model records only the requested body type and the kinematic translation a frame writes.
- `Math.random()` is nondeterministic. Its draws are parameters, and nothing requires ids to be distinct.
- Motion.FramesOffset: chaining steps assumes that the translation the body reports in one frame (src/App.js:35) is exactly the one the previous frame wrote (src/App.js:36). Whether it is depends on how the Rapier engine schedules its world steps against rendered frames, which may be zero or several per frame. The same assumption underlies `Motion.FramesConverge` and `Motion.FramesReach`, which speak of successive steps, not of rendered frames.
- Motion.DragStep: arithmetic is over `real`. IEEE rounding of `lerp` is not modelled, so the exact contraction is the idealised one.
- Ledger.AddItem: the counters are unbounded integers. JavaScript numbers lose exactness above 2^53 units, which this ignores.
- Lights, camera placement, shadows and mesh sizes are display only.
