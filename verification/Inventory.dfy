/**
 The capacity-bounded inventory (packages/simulation/src/inventory.ts): slots in acquisition
 order and the pure operations on them.
 */
module Inventory {
  import opened Wrappers
  import opened Sorting
  import opened Geometry

  type ItemId = string
  type SlotId = string

  datatype InventoryState = InventoryState(slots: seq<ItemId>, capacity: int)

  datatype OverflowPolicy = DropOldest | Reject

  datatype DroppedReason = Overflow | Requested | Defeat

  datatype RejectedReason = CapacityFull | NotHeld | SlotOccupied | SlotEmpty

  datatype InventoryResult =
    | ItemGranted(item: ItemId, index: int)
    | ItemDropped(item: ItemId, dropped: DroppedReason)
    | ItemConsumed(item: ItemId)
    | ItemEquipped(item: ItemId, slot: SlotId)
    | ItemUnequipped(item: ItemId, slot: SlotId)
    | PickupSpawned(item: ItemId, at: Vec2)
    | InventoryRejected(item: ItemId, reason: RejectedReason)

  datatype OpResult = OpResult(state: InventoryState, results: seq<InventoryResult>)

  /** What `makeInventoryState` establishes. */
  predicate Fits(state: InventoryState)
  {
    |state.slots| <= state.capacity
  }

  // ----- operations -----

  function SpawnAt(item: ItemId, at: Option<Vec2>): seq<InventoryResult>
  {
    if at.Some? then [PickupSpawned(item, at.value)] else []
  }

  function GrantItem(state: InventoryState, item: ItemId, policy: OverflowPolicy, dropAt: Option<Vec2>): OpResult
  {
    if |state.slots| < state.capacity then
      OpResult(state.(slots := state.slots + [item]), [ItemGranted(item, |state.slots|)])
    else if policy == Reject || state.capacity <= 0 then
      OpResult(state, [InventoryRejected(item, CapacityFull)])
    else
      var oldest, rest := state.slots[0], state.slots[1..];
      OpResult(state.(slots := rest + [item]),
               [ItemDropped(oldest, Overflow)] + SpawnAt(oldest, dropAt) + [ItemGranted(item, |rest|)])
  }

  /** The first position holding `item`, or -1. */
  function IndexOf(slots: seq<ItemId>, item: ItemId): (i: int)
    ensures -1 <= i < |slots|
    ensures i < 0 <==> item !in slots
    ensures i >= 0 ==> slots[i] == item && item !in slots[..i]
  {
    if slots == [] then -1
    else if slots[0] == item then 0
    else
      var rest := IndexOf(slots[1..], item);
      assert rest >= 0 ==> slots[..rest + 1] == [slots[0]] + slots[1..][..rest];
      if rest < 0 then -1 else rest + 1
  }

  function RemoveAt(slots: seq<ItemId>, i: nat): seq<ItemId>
    requires i < |slots|
  {
    slots[..i] + slots[i + 1..]
  }

  function DropItem(state: InventoryState, item: ItemId, at: Option<Vec2>): OpResult
  {
    var index := IndexOf(state.slots, item);
    if index < 0 then OpResult(state, [InventoryRejected(item, NotHeld)])
    else OpResult(state.(slots := RemoveAt(state.slots, index)), [ItemDropped(item, Requested)] + SpawnAt(item, at))
  }

  function ConsumeItem(state: InventoryState, item: ItemId): OpResult
  {
    var index := IndexOf(state.slots, item);
    if index < 0 then OpResult(state, [InventoryRejected(item, NotHeld)])
    else OpResult(state.(slots := RemoveAt(state.slots, index)), [ItemConsumed(item)])
  }

  // ----- what an operation does -----

  /** `after` is `before` without its first copy of `item`, everything else in its old order. */
  ghost predicate LosesFirst(before: seq<ItemId>, item: ItemId, after: seq<ItemId>)
  {
    exists i :: 0 <= i < |before| && before[i] == item && item !in before[..i] && after == before[..i] + before[i + 1..]
  }

  lemma RemovalLosesFirst(slots: seq<ItemId>, item: ItemId)
    requires item in slots
    ensures LosesFirst(slots, item, RemoveAt(slots, IndexOf(slots, item)))
  {
    var i := IndexOf(slots, item);
    assert slots[i] == item && RemoveAt(slots, i) == slots[..i] + slots[i + 1..];
  }

  /** A held item is taken out and reported by `done`; one that is not held is refused and nothing changes. */
  ghost predicate TakesOut(state: InventoryState, item: ItemId, done: seq<InventoryResult>, op: OpResult)
  {
    if item in state.slots then
      LosesFirst(state.slots, item, op.state.slots) && op.state.capacity == state.capacity && op.results == done
    else
      op.state == state && op.results == [InventoryRejected(item, NotHeld)]
  }

  /** A held item falls to the ground, where the drop says. */
  lemma DropIsExact(state: InventoryState, item: ItemId, at: Option<Vec2>)
    ensures TakesOut(state, item,
                     if at.Some? then [ItemDropped(item, Requested), PickupSpawned(item, at.value)]
                     else [ItemDropped(item, Requested)],
                     DropItem(state, item, at))
  {
    if item in state.slots {
      RemovalLosesFirst(state.slots, item);
    }
  }

  lemma ConsumptionIsExact(state: InventoryState, item: ItemId)
    ensures TakesOut(state, item, [ItemConsumed(item)], ConsumeItem(state, item))
  {
    if item in state.slots {
      RemovalLosesFirst(state.slots, item);
    }
  }

  /** An item is refused exactly when nothing is free and nothing may be evicted; otherwise it comes last. */
  ghost predicate PutsIn(state: InventoryState, item: ItemId, policy: OverflowPolicy, at: Option<Vec2>, op: OpResult)
  {
    var full := |state.slots| >= state.capacity;
    if full && (policy == Reject || state.capacity <= 0) then
      op.state == state && op.results == [InventoryRejected(item, CapacityFull)]
    else
      && op.state.capacity == state.capacity && op.state.slots != [] && op.results != []
      && op.state.slots[|op.state.slots| - 1] == item
      && op.state.slots[..|op.state.slots| - 1] == (if full then state.slots[1..] else state.slots)
      && op.results[|op.results| - 1..] == [ItemGranted(item, |op.state.slots| - 1)]
      && op.results[..|op.results| - 1] ==
         if !full then []
         else if at.None? then [ItemDropped(state.slots[0], Overflow)]
         else [ItemDropped(state.slots[0], Overflow), PickupSpawned(state.slots[0], at.value)]
  }

  lemma GrantIsExact(state: InventoryState, item: ItemId, policy: OverflowPolicy, at: Option<Vec2>)
    ensures PutsIn(state, item, policy, at, GrantItem(state, item, policy, at))
  {
    if |state.slots| >= state.capacity && policy != Reject && state.capacity > 0 {
      var oldest := state.slots[0];
      var fallen := [ItemDropped(oldest, Overflow)] + SpawnAt(oldest, at);
      var results := GrantItem(state, item, policy, at).results;
      assert results == fallen + [ItemGranted(item, |state.slots[1..]|)];
      assert results[..|results| - 1] == fallen;
    }
  }

  // ----- what the results say about the items -----

  type ResultKind = InventoryResult -> bool

  /** How often the results of one kind name an item. */
  function Count(results: seq<InventoryResult>, kind: ResultKind, item: ItemId): nat
  {
    if results == [] then 0 else One(results[0], kind, item) + Count(results[1..], kind, item)
  }

  function One(result: InventoryResult, kind: ResultKind, item: ItemId): nat
  {
    if kind(result) && result.item == item then 1 else 0
  }

  function Gained(): ResultKind { (r: InventoryResult) => r.ItemGranted? }
  function Lost(): ResultKind { (r: InventoryResult) => r.ItemDropped? || r.ItemConsumed? }
  function Fallen(): ResultKind { (r: InventoryResult) => r.ItemDropped? }
  function Spawned(): ResultKind { (r: InventoryResult) => r.PickupSpawned? }

  lemma {:induction false} CountAppend(a: seq<InventoryResult>, b: seq<InventoryResult>, kind: ResultKind, item: ItemId)
    ensures Count(a + b, kind, item) == Count(a, kind, item) + Count(b, kind, item)
  {
    if a == [] {
      assert a + b == b;
    } else {
      CountAppend(a[1..], b, kind, item);
      assert (a + b)[0] == a[0] && (a + b)[1..] == a[1..] + b;
    }
  }

  lemma CountOne(r: InventoryResult, kind: ResultKind, item: ItemId)
    ensures Count([r], kind, item) == One(r, kind, item)
  {
  }

  /** The copies of each item before and after differ exactly as the results say. */
  ghost predicate Conserves(before: multiset<ItemId>, results: seq<InventoryResult>, after: multiset<ItemId>)
  {
    forall item :: ConservesItem(before, results, after, item)
  }

  predicate ConservesItem(before: multiset<ItemId>, results: seq<InventoryResult>, after: multiset<ItemId>,
                          item: ItemId)
  {
    after[item] + Count(results, Lost(), item) == before[item] + Count(results, Gained(), item)
  }

  lemma ConservesInTurn(a: multiset<ItemId>, r: seq<InventoryResult>, b: multiset<ItemId>, s: seq<InventoryResult>,
                        c: multiset<ItemId>)
    requires Conserves(a, r, b) && Conserves(b, s, c)
    ensures Conserves(a, r + s, c)
  {
    forall item ensures ConservesItem(a, r + s, c, item) {
      assert ConservesItem(a, r, b, item) && ConservesItem(b, s, c, item);
      CountAppend(r, s, Lost(), item);
      CountAppend(r, s, Gained(), item);
    }
  }

  /** A single result that moves nothing, or moves one copy of its item. */
  lemma OneConserves(before: multiset<ItemId>, r: InventoryResult, after: multiset<ItemId>)
    requires Gained()(r) ==> after == before + multiset{r.item}
    requires Lost()(r) ==> before == after + multiset{r.item}
    requires !Gained()(r) && !Lost()(r) ==> after == before
    ensures Conserves(before, [r], after)
  {
    forall item ensures ConservesItem(before, [r], after, item) {
      CountOne(r, Lost(), item);
      CountOne(r, Gained(), item);
    }
  }

  lemma SpawnConserves(held: multiset<ItemId>, item: ItemId, at: Option<Vec2>)
    ensures Conserves(held, SpawnAt(item, at), held)
  {
    if at.Some? {
      OneConserves(held, PickupSpawned(item, at.value), held);
    } else {
      NothingConserves(held);
    }
  }

  lemma NothingConserves(held: multiset<ItemId>)
    ensures Conserves(held, [], held)
  {
    forall item ensures ConservesItem(held, [], held, item) {
    }
  }

  lemma GrantConserves(state: InventoryState, item: ItemId, policy: OverflowPolicy, dropAt: Option<Vec2>)
    ensures var op := GrantItem(state, item, policy, dropAt);
            Conserves(multiset(state.slots), op.results, multiset(op.state.slots))
  {
    if |state.slots| < state.capacity {
      OneConserves(multiset(state.slots), ItemGranted(item, |state.slots|), multiset(state.slots + [item]));
    } else if policy == Reject || state.capacity <= 0 {
      OneConserves(multiset(state.slots), InventoryRejected(item, CapacityFull), multiset(state.slots));
    } else {
      EvictionConserves(state.slots, item, dropAt);
    }
  }

  lemma GrantFits(state: InventoryState, item: ItemId, policy: OverflowPolicy, dropAt: Option<Vec2>)
    ensures var op := GrantItem(state, item, policy, dropAt);
            op.state.capacity == state.capacity && (Fits(state) ==> Fits(op.state))
  {
  }

  lemma EvictionConserves(slots: seq<ItemId>, item: ItemId, dropAt: Option<Vec2>)
    requires slots != []
    ensures Conserves(multiset(slots),
                      [ItemDropped(slots[0], Overflow)] + SpawnAt(slots[0], dropAt) + [ItemGranted(item, |slots| - 1)],
                      multiset(slots[1..] + [item]))
  {
    var before, rest, after := multiset(slots), multiset(slots[1..]), multiset(slots[1..] + [item]);
    var fallen := [ItemDropped(slots[0], Overflow)];
    assert slots == [slots[0]] + slots[1..];
    OneConserves(before, ItemDropped(slots[0], Overflow), rest);
    SpawnConserves(rest, slots[0], dropAt);
    OneConserves(rest, ItemGranted(item, |slots| - 1), after);
    ConservesInTurn(before, fallen, rest, SpawnAt(slots[0], dropAt), rest);
    ConservesInTurn(before, fallen + SpawnAt(slots[0], dropAt), rest, [ItemGranted(item, |slots| - 1)], after);
  }

  lemma RemoveOne(slots: seq<ItemId>, i: nat)
    requires i < |slots|
    ensures multiset(RemoveAt(slots, i)) + multiset{slots[i]} == multiset(slots)
  {
    assert slots == slots[..i] + [slots[i]] + slots[i + 1..];
  }

  lemma DropConserves(state: InventoryState, item: ItemId, at: Option<Vec2>)
    ensures var op := DropItem(state, item, at);
            && Conserves(multiset(state.slots), op.results, multiset(op.state.slots))
            && op.state.capacity == state.capacity
            && (Fits(state) ==> Fits(op.state))
  {
    var index, before := IndexOf(state.slots, item), multiset(state.slots);
    if index >= 0 {
      var after := multiset(RemoveAt(state.slots, index));
      RemoveOne(state.slots, index);
      OneConserves(before, ItemDropped(item, Requested), after);
      SpawnConserves(after, item, at);
      ConservesInTurn(before, [ItemDropped(item, Requested)], after, SpawnAt(item, at), after);
    } else {
      OneConserves(before, InventoryRejected(item, NotHeld), before);
    }
  }

  lemma ConsumeConserves(state: InventoryState, item: ItemId)
    ensures var op := ConsumeItem(state, item);
            && Conserves(multiset(state.slots), op.results, multiset(op.state.slots))
            && op.state.capacity == state.capacity
            && (Fits(state) ==> Fits(op.state))
  {
    var index, before := IndexOf(state.slots, item), multiset(state.slots);
    if index >= 0 {
      RemoveOne(state.slots, index);
      OneConserves(before, ItemConsumed(item), multiset(RemoveAt(state.slots, index)));
    } else {
      OneConserves(before, InventoryRejected(item, NotHeld), before);
    }
  }

  // ----- drop-oldest keeps the newest -----

  function Newest(items: seq<ItemId>, capacity: nat): seq<ItemId>
  {
    if |items| <= capacity then items else items[|items| - capacity..]
  }

  function GrantAll(state: InventoryState, items: seq<ItemId>): InventoryState
    decreases items
  {
    if items == [] then state else GrantAll(GrantItem(state, items[0], DropOldest, None).state, items[1..])
  }

  /** Granting a list under drop-oldest leaves exactly the newest `capacity` items, in order. */
  lemma {:induction false} DropOldestKeepsNewest(state: InventoryState, items: seq<ItemId>)
    requires Fits(state)
    ensures GrantAll(state, items) == state.(slots := Newest(state.slots + items, state.capacity))
    decreases items
  {
    if items == [] {
      assert state.slots + items == state.slots;
    } else {
      var next := GrantItem(state, items[0], DropOldest, None).state;
      assert Fits(next);
      DropOldestKeepsNewest(next, items[1..]);
      if |state.slots| < state.capacity {
        assert next.slots + items[1..] == state.slots + items;
      } else {
        NewestDropsFirst(state.slots, items, state.capacity);
      }
    }
  }

  lemma NewestDropsFirst(slots: seq<ItemId>, items: seq<ItemId>, capacity: nat)
    requires |slots| == capacity && items != []
    ensures capacity == 0 ==> Newest(slots + items[1..], capacity) == Newest(slots + items, capacity)
    ensures capacity > 0 ==> Newest(slots[1..] + [items[0]] + items[1..], capacity) == Newest(slots + items, capacity)
  {
    if capacity > 0 {
      assert slots[1..] + [items[0]] + items[1..] == (slots + items)[1..];
    }
  }
}
