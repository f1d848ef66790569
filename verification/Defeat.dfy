/** Spilling a defeated entity's inventory (packages/simulation/src/inventory-ops.ts). */
module Defeat {
  import opened Wrappers
  import opened Geometry
  import opened Rng
  import opened Loot
  import opened Inventory
  import opened InventoryLedger

  function Spill(slots: seq<ItemId>, at: Vec2): seq<InventoryResult>
  {
    if slots == [] then []
    else
      var last := |slots| - 1;
      Spill(slots[..last], at) + [ItemDropped(slots[last], Defeat), PickupSpawned(slots[last], at)]
  }

  function Copies(item: ItemId, quantity: int, at: Vec2): seq<InventoryResult>
    decreases quantity
  {
    if quantity <= 0 then [] else Copies(item, quantity - 1, at) + [PickupSpawned(item, at)]
  }

  method DropOnDefeat(inventory: InventoryState, at: Vec2, loot: Option<seq<LootEntry>>, rng: SeededRng)
    returns (state: InventoryState, results: seq<InventoryResult>)
    requires Unsigned32(rng.draws)
    modifies rng
    ensures state == InventoryState([], inventory.capacity)
    ensures loot.None? || Total(loot.value) <= 0.0 ==>
              results == Spill(inventory.slots, at) && rng.cursor == old(rng.cursor)
    ensures loot.Some? && Total(loot.value) > 0.0 ==>
              && rng.cursor == old(rng.cursor) + 1
              && exists entry ::
                   && Picks(loot.value, Target(FloatAt(rng.draws, old(rng.cursor)), Total(loot.value)), entry)
                   && results == Spill(inventory.slots, at) + Copies(entry.item, entry.quantity, at)
  {
    results := SpillAll(inventory.slots, at);
    state := InventoryState([], inventory.capacity);
    if loot.Some? {
      var rolled := RollLootTable(loot.value, rng);
      if rolled.Some? {
        var copies := SpawnCopies(rolled.value.item, rolled.value.quantity, at);
        results := results + copies;
      }
    }
  }

  method SpillAll(slots: seq<ItemId>, at: Vec2) returns (results: seq<InventoryResult>)
    ensures results == Spill(slots, at)
  {
    results := [];
    var i := 0;
    while i < |slots|
      invariant 0 <= i <= |slots|
      invariant results == Spill(slots[..i], at)
    {
      assert slots[..i + 1][..i] == slots[..i];
      results := results + [ItemDropped(slots[i], Defeat), PickupSpawned(slots[i], at)];
      i := i + 1;
    }
    assert slots[..i] == slots;
  }

  method SpawnCopies(item: ItemId, quantity: int, at: Vec2) returns (results: seq<InventoryResult>)
    ensures results == Copies(item, quantity, at)
  {
    results := [];
    var copy := 0;
    while copy < quantity
      invariant copy == 0 || copy <= quantity
      invariant results == Copies(item, copy, at)
    {
      results := results + [PickupSpawned(item, at)];
      copy := copy + 1;
    }
  }

  /** The spill goes through the slots in order: each item falls and then lands where its owner fell. */
  lemma {:induction false} SpillIsInOrder(slots: seq<ItemId>, at: Vec2)
    ensures |Spill(slots, at)| == |slots| + |slots|
    ensures forall i :: 0 <= i < |slots| ==>
              && Spill(slots, at)[i + i] == ItemDropped(slots[i], Defeat)
              && Spill(slots, at)[i + i + 1] == PickupSpawned(slots[i], at)
  {
    if slots != [] {
      var last := |slots| - 1;
      SpillIsInOrder(slots[..last], at);
      forall i | 0 <= i < last
        ensures Spill(slots, at)[i + i] == ItemDropped(slots[i], Defeat)
        ensures Spill(slots, at)[i + i + 1] == PickupSpawned(slots[i], at)
      {
        assert slots[..last][i] == slots[i];
      }
    }
  }

  /** Loot lands as many times as its quantity says. */
  lemma {:induction false} CopiesAreExact(item: ItemId, quantity: nat, at: Vec2)
    ensures |Copies(item, quantity, at)| == quantity
    ensures forall i :: 0 <= i < quantity ==> Copies(item, quantity, at)[i] == PickupSpawned(item, at)
  {
    if quantity > 0 {
      CopiesAreExact(item, quantity - 1, at);
    }
  }

  /** Defeat empties the inventory into the world: every held item falls once and lands once. */
  lemma {:induction false} SpillIsComplete(slots: seq<ItemId>, at: Vec2)
    ensures Conserves(multiset(slots), Spill(slots, at), multiset{})
    ensures SpawnsDrops(Spill(slots, at))
  {
    if slots == [] {
      NothingConserves(multiset{});
    } else {
      var last := |slots| - 1;
      var item, rest := slots[last], slots[..last];
      assert slots == rest + [item];
      SpillIsComplete(rest, at);
      var tail := [ItemDropped(item, Defeat)] + SpawnAt(item, Some(at));
      assert Spill(slots, at) == Spill(rest, at) + tail;
      DropSpawns(item, Defeat, Some(at));
      SpawnsInTurn(Spill(rest, at), tail);
      forall x ensures ConservesItem(multiset(slots), Spill(slots, at), multiset{}, x) {
        assert ConservesItem(multiset(rest), Spill(rest, at), multiset{}, x);
        TailCounts(item, at, x);
        CountAppend(Spill(rest, at), tail, Lost(), x);
        CountAppend(Spill(rest, at), tail, Gained(), x);
        assert multiset(slots)[x] == (multiset(rest) + multiset{item})[x];
      }
    }
  }

  lemma TailCounts(item: ItemId, at: Vec2, x: ItemId)
    ensures var tail := [ItemDropped(item, Defeat)] + SpawnAt(item, Some(at));
            && Count(tail, Lost(), x) == (if item == x then 1 else 0)
            && Count(tail, Gained(), x) == 0
  {
    CountAppend([ItemDropped(item, Defeat)], [PickupSpawned(item, at)], Lost(), x);
    CountAppend([ItemDropped(item, Defeat)], [PickupSpawned(item, at)], Gained(), x);
    CountOne(ItemDropped(item, Defeat), Lost(), x);
    CountOne(ItemDropped(item, Defeat), Gained(), x);
    CountOne(PickupSpawned(item, at), Lost(), x);
    CountOne(PickupSpawned(item, at), Gained(), x);
  }
}
