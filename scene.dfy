/** The whole interactive state of the warehouse page (src/App.js): the
    ledger, the drag flags of every mounted box and the shared drag flag,
    driven by the four kinds of user event. Adding a box mounts a new
    DraggableBox; selling one unmounts the last, taking its flags with it. */
module Scene {
  import opened Ledger
  import opened Drag

  datatype World = World(store: Store, drag: DragState)

  datatype Event =
    | AddClick(spawn: Spawn)
    | SellClick
    | PointerDownOn(box: nat, button: int)
    | WindowMouseUp

  /** Ledger invariant, one set of drag flags per box, and the shared flag
      raised whenever a box is held. */
  predicate Valid(w: World)
  {
    && Ledger.Valid(w.store)
    && |w.drag.flags| == |w.store.boxes|
    && Consistent(w.drag)
  }

  /** An event whose random draws lie in [0, 1). */
  predicate EventOk(e: Event)
  {
    e.AddClick? ==> IsSpawn(e.spawn)
  }

  predicate WellFormed(es: seq<Event>)
  {
    forall k :: 0 <= k < |es| ==> EventOk(es[k])
  }

  /** The number of add clicks in an event sequence. */
  function Adds(es: seq<Event>): nat
  {
    if es == [] then 0 else (if es[0].AddClick? then 1 else 0) + Adds(es[1..])
  }

  /** The page as it mounts: the initial ledger, five boxes that are neither
      held nor released, and camera orbit on. */
  function Init(spawns: seq<Spawn>): (w: World)
    requires |spawns| == InitialStock
    ensures w.store == Initial(spawns)
    ensures w.store.inventory == Inventory(5, 0) && |w.store.boxes| == 5
    ensures |w.drag.flags| == 5 && forall k :: 0 <= k < 5 ==> w.drag.flags[k] == Mounted
    ensures OrbitEnabled(w.drag)
    ensures (forall k :: 0 <= k < 5 ==> IsSpawn(spawns[k])) ==> Valid(w)
  {
    World(Initial(spawns), DragState(seq(InitialStock, _ => Mounted), false))
  }

  /** One event. A pointer-down reaches a box only if that box is mounted;
      one that hits no box reaches no handler. */
  function Step(w: World, e: Event): (w': World)
    ensures e.PointerDownOn? || e.WindowMouseUp? ==> w'.store == w.store
    ensures w'.store.inventory.sold >= w.store.inventory.sold
    ensures e.SellClick? && w.store.inventory.stored > 0 ==>
              && w'.drag.draggingGlobal == w.drag.draggingGlobal
              && (|w.drag.flags| > 0 ==> w'.drag.flags == w.drag.flags[..|w.drag.flags| - 1])
    ensures Valid(w) && EventOk(e) ==> Valid(w')
  {
    match e
    case AddClick(sp) =>
      World(AddItem(w.store, sp), DragState(w.drag.flags + [Mounted], w.drag.draggingGlobal))
    case SellClick =>
      if w.store.inventory.stored > 0 then
        World(SellItem(w.store), DragState(DropLast(w.drag.flags), w.drag.draggingGlobal))
      else
        w
    case PointerDownOn(i, button) =>
      if i < |w.drag.flags| then World(w.store, PointerDown(w.drag, i, button)) else w
    case WindowMouseUp =>
      World(w.store, MouseUp(w.drag))
  }

  /** An add click performs addItem and mounts one fresh, unheld box at the
      end of the list, leaving the shared flag alone; a pointer-down that hits
      no mounted box changes nothing. */
  lemma StepMountsAndMisses(w: World, sp: Spawn, i: nat, button: int)
    ensures Step(w, AddClick(sp)).store == AddItem(w.store, sp)
    ensures Step(w, AddClick(sp)).drag == DragState(w.drag.flags + [Mounted], w.drag.draggingGlobal)
    ensures i >= |w.drag.flags| ==> Step(w, PointerDownOn(i, button)) == w
  {
  }

  function Run(w: World, es: seq<Event>): World
    decreases |es|
  {
    if es == [] then w else Run(Step(w, es[0]), es[1..])
  }

  /** Any sequence of well-formed events keeps the invariant, never lowers
      the sold count, and conserves stock: stored plus sold grows by exactly
      the number of add clicks. */
  lemma {:induction false} RunPreserves(w: World, es: seq<Event>)
    requires Valid(w) && WellFormed(es)
    ensures Valid(Run(w, es))
    ensures Run(w, es).store.inventory.sold >= w.store.inventory.sold
    ensures Run(w, es).store.inventory.stored + Run(w, es).store.inventory.sold
            == w.store.inventory.stored + w.store.inventory.sold + Adds(es)
    decreases |es|
  {
    if es != [] {
      var w1 := Step(w, es[0]);
      assert EventOk(es[0]);
      assert WellFormed(es[1..]) by {
        forall k | 0 <= k < |es[1..]|
          ensures EventOk(es[1..][k])
        {
          assert es[1..][k] == es[k + 1];
        }
      }
      RunPreserves(w1, es[1..]);
      assert w1.store.inventory.stored + w1.store.inventory.sold
             == w.store.inventory.stored + w.store.inventory.sold + (if es[0].AddClick? then 1 else 0);
    }
  }

  /** From the page as it mounts, after any well-formed events: stock is
      never negative, there is one box per stored unit, stored plus sold is
      five plus the number of add clicks, and camera orbit is off whenever a
      box is held. */
  lemma Reachable(spawns: seq<Spawn>, es: seq<Event>)
    requires |spawns| == InitialStock && forall k :: 0 <= k < |spawns| ==> IsSpawn(spawns[k])
    requires WellFormed(es)
    ensures Run(Init(spawns), es).store.inventory.stored >= 0
    ensures |Run(Init(spawns), es).store.boxes| == Run(Init(spawns), es).store.inventory.stored
    ensures Run(Init(spawns), es).store.inventory.stored + Run(Init(spawns), es).store.inventory.sold
            == InitialStock + Adds(es)
    ensures AnyDragging(Run(Init(spawns), es).drag.flags) ==> !OrbitEnabled(Run(Init(spawns), es).drag)
  {
    RunPreserves(Init(spawns), es);
  }

  /** Pointer and mouse-up events never touch the ledger. */
  lemma {:induction false} DragEventsKeepStore(w: World, es: seq<Event>)
    requires forall k :: 0 <= k < |es| ==> es[k].PointerDownOn? || es[k].WindowMouseUp?
    ensures Run(w, es).store == w.store
    decreases |es|
  {
    if es != [] {
      DragEventsKeepStore(Step(w, es[0]), es[1..]);
    }
  }

  /** Selling with nothing stored leaves the whole page unchanged. */
  lemma SellWithoutStockIsNoOp(w: World)
    requires w.store.inventory.stored == 0
    ensures Step(w, SellClick) == w
  {
  }

  /** `n` sell clicks in a row. */
  function Sells(w: World, n: nat): World
    decreases n
  {
    if n == 0 then w else Sells(Step(w, SellClick), n - 1)
  }

  /** `n` sell clicks sell `n` units while stock lasts and are refused after
      that: stored falls to the larger of stored - n and zero, sold rises by
      the smaller of n and stored, and the box list follows stored. */
  lemma {:induction false} SellsSaturate(w: World, n: nat)
    requires Valid(w)
    ensures Valid(Sells(w, n))
    ensures Sells(w, n).store.inventory.stored == if n <= w.store.inventory.stored then w.store.inventory.stored - n else 0
    ensures Sells(w, n).store.inventory.sold
            == w.store.inventory.sold + if n <= w.store.inventory.stored then n else w.store.inventory.stored
    decreases n
  {
    if n > 0 {
      SellsSaturate(Step(w, SellClick), n - 1);
    }
  }

  /** The inventory walk-through: add one to the initial five, sell three,
      sell three more, and one further sale is refused. */
  lemma InventoryScenario(spawns: seq<Spawn>, sp: Spawn)
    requires |spawns| == InitialStock && forall k :: 0 <= k < |spawns| ==> IsSpawn(spawns[k])
    requires IsSpawn(sp)
    ensures var w1 := Step(Init(spawns), AddClick(sp));
            w1.store.inventory == Inventory(6, 0) && |w1.store.boxes| == 6
    ensures var w4 := Sells(Step(Init(spawns), AddClick(sp)), 3);
            w4.store.inventory == Inventory(3, 3) && |w4.store.boxes| == 3
    ensures var w7 := Sells(Step(Init(spawns), AddClick(sp)), 6);
            w7.store.inventory == Inventory(0, 6) && |w7.store.boxes| == 0
            && Step(w7, SellClick) == w7
  {
    var w0 := Init(spawns);
    assert Valid(w0);
    var w1 := Step(w0, AddClick(sp));
    assert Valid(w1) && w1.store.inventory == Inventory(6, 0);
    SellOutSix(w1);
  }

  /** The selling half of the walk-through, from six stored and none sold. */
  lemma SellOutSix(w: World)
    requires Valid(w) && w.store.inventory == Inventory(6, 0)
    ensures Sells(w, 3).store.inventory == Inventory(3, 3) && |Sells(w, 3).store.boxes| == 3
    ensures Sells(w, 6).store.inventory == Inventory(0, 6) && |Sells(w, 6).store.boxes| == 0
    ensures Step(Sells(w, 6), SellClick) == Sells(w, 6)
  {
    SellsSaturate(w, 3);
    SellsSaturate(w, 6);
    SellWithoutStockIsNoOp(Sells(w, 6));
  }

  /** The drag walk-through: a primary press on a box makes it kinematic and
      red and turns orbit off; releasing the mouse anywhere makes it dynamic
      again in its own colour and turns orbit back on. */
  lemma DragScenario(spawns: seq<Spawn>, i: nat)
    requires |spawns| == InitialStock && i < InitialStock
    ensures var held := Step(Init(spawns), PointerDownOn(i, PrimaryButton));
            && BodyTypeOf(held.drag.flags[i]) == KinematicPosition
            && MeshColour(held.drag.flags[i], BoxColour) == HeldColour
            && !OrbitEnabled(held.drag)
    ensures var released := Step(Step(Init(spawns), PointerDownOn(i, PrimaryButton)), WindowMouseUp);
            && |released.drag.flags| == InitialStock
            && released.drag.flags[i] == BoxFlags(false, true)
            && BodyTypeOf(released.drag.flags[i]) == Dynamic
            && MeshColour(released.drag.flags[i], BoxColour) == BoxColour
            && OrbitEnabled(released.drag)
  {
    var held := Step(Init(spawns), PointerDownOn(i, PrimaryButton));
    assert AnyDragging(held.drag.flags) by {
      assert held.drag.flags[i].dragging;
    }
  }

  /** No mutual exclusion: a primary press on a second box while the first
      is held leaves both held; one mouse-up releases both. */
  lemma TwoBoxesHeld(spawns: seq<Spawn>)
    requires |spawns| == InitialStock
    ensures var both := Step(Step(Init(spawns), PointerDownOn(0, PrimaryButton)), PointerDownOn(1, PrimaryButton));
            |both.drag.flags| == InitialStock && both.drag.flags[0].dragging && both.drag.flags[1].dragging
    ensures var after := Step(Step(Step(Init(spawns), PointerDownOn(0, PrimaryButton)), PointerDownOn(1, PrimaryButton)), WindowMouseUp);
            !AnyDragging(after.drag.flags) && OrbitEnabled(after.drag)
  {
    var both := Step(Step(Init(spawns), PointerDownOn(0, PrimaryButton)), PointerDownOn(1, PrimaryButton));
    assert AnyDragging(both.drag.flags) by {
      assert both.drag.flags[0].dragging;
    }
  }

  /** Selling the box that is being held unmounts it together with its
      mouse-up listener, and nothing lowers the shared flag: after the mouse
      is released no box is held, yet camera orbit stays off. */
  lemma OrbitStaysOffAfterSellingHeldBox(spawns: seq<Spawn>)
    requires |spawns| == InitialStock
    ensures var w := Step(Step(Step(Init(spawns), PointerDownOn(4, PrimaryButton)), SellClick), WindowMouseUp);
            !AnyDragging(w.drag.flags) && !OrbitEnabled(w.drag)
  {
    var w0 := Init(spawns);
    var w2 := Step(Step(w0, PointerDownOn(4, PrimaryButton)), SellClick);
    assert w2.drag.flags == w0.drag.flags[..4];
    assert !AnyDragging(w2.drag.flags);
  }

  /** The same for any page: when the last box is the only one held and
      something is stored, selling unmounts that box with its listener, so
      the mouse-up that follows finds no box to release and the shared flag
      stays raised. */
  lemma SellingHeldBoxLeavesOrbitOff(w: World)
    requires Valid(w) && w.store.inventory.stored > 0
    requires w.drag.flags[|w.drag.flags| - 1].dragging
    requires !AnyDragging(w.drag.flags[..|w.drag.flags| - 1])
    ensures var w' := Step(Step(w, SellClick), WindowMouseUp);
            !AnyDragging(w'.drag.flags) && !OrbitEnabled(w'.drag)
  {
    assert |w.drag.flags| > 0;
    assert AnyDragging(w.drag.flags) by {
      assert w.drag.flags[|w.drag.flags| - 1].dragging;
    }
  }
}
