/**
 What the command log keeps (packages/simulation/src/inventory.ts and inventory-ops.ts):
 items are neither created nor lost, capacities hold and equipment stays canonical.
 */
module InventoryLedger {
  import opened Wrappers
  import opened Sorting
  import opened Text
  import opened Geometry
  import opened Inventory
  import opened InventoryOps
  import opened InventoryOrder

  // ----- equipment -----

  function SlotOf(): EquippedSlot -> string
  {
    (e: EquippedSlot) => e.slot
  }

  /** One item per slot, in slot order. */
  ghost predicate Canonical(equipment: Equipment)
  {
    StrictlyAscending(equipment, SlotOf())
  }

  function WornCount(equipment: Equipment, item: ItemId): nat
  {
    if equipment == [] then 0 else (if equipment[0].item == item then 1 else 0) + WornCount(equipment[1..], item)
  }

  lemma {:induction false} InsertWorn(e: EquippedSlot, s: Equipment, item: ItemId)
    ensures WornCount(Insert(e, s, SlotLeq), item) == WornCount([e], item) + WornCount(s, item)
  {
    assert WornCount([e], item) == if e.item == item then 1 else 0;
    if s == [] || SlotLeq(e, s[0]) {
      assert ([e] + s)[1..] == s;
    } else {
      InsertWorn(e, s[1..], item);
    }
  }

  lemma {:induction false} SortWorn(s: Equipment, item: ItemId)
    ensures WornCount(SortBy(s, SlotLeq), item) == WornCount(s, item)
  {
    if s != [] {
      SortWorn(s[1..], item);
      InsertWorn(s[0], SortBy(s[1..], SlotLeq), item);
      assert WornCount([s[0]], item) == if s[0].item == item then 1 else 0;
    }
  }

  lemma {:induction false} AppendWorn(s: Equipment, e: EquippedSlot, item: ItemId)
    ensures WornCount(s + [e], item) == WornCount(s, item) + if e.item == item then 1 else 0
  {
    if s == [] {
      assert s + [e] == [e];
    } else {
      AppendWorn(s[1..], e, item);
      assert (s + [e])[1..] == s[1..] + [e];
    }
  }

  lemma DistinctSlots(s: Equipment)
    requires Canonical(s)
    ensures DistinctKeys(s, SlotOf())
  {
    forall i, j | 0 <= i < j < |s| ensures SlotOf()(s[i]) != SlotOf()(s[j]) {
      assert TextLess(SlotOf()(s[i]), SlotOf()(s[j]));
    }
  }

  /** Vacating a slot takes off exactly the item in it. */
  lemma {:induction false} VacateWorn(s: Equipment, slot: SlotId, item: ItemId)
    requires DistinctKeys(s, SlotOf())
    ensures WornCount(s, item) ==
            WornCount(Filter(s, OtherSlot(slot)), item) + if EquippedItem(s, slot) == Some(item) then 1 else 0
  {
    if s != [] {
      VacateWorn(s[1..], slot, item);
      if s[0].slot == slot {
        forall e | e in s[1..] ensures e.slot != slot {
          var j :| 0 < j < |s| && s[j] == e;
          assert SlotOf()(s[0]) != SlotOf()(s[j]);
        }
        SlotAbsent(s[1..], slot);
      }
    }
  }

  lemma {:induction false} SlotAbsent(s: Equipment, slot: SlotId)
    requires forall e :: e in s ==> e.slot != slot
    ensures EquippedItem(s, slot) == None && Filter(s, OtherSlot(slot)) == s
  {
    if s != [] {
      SlotAbsent(s[1..], slot);
    }
  }

  lemma {:induction false} WearerIs(s: Equipment, slot: SlotId)
    requires DistinctKeys(s, SlotOf())
    ensures forall e :: e in s && e.slot == slot ==> EquippedItem(s, slot) == Some(e.item)
    ensures (forall e :: e in s ==> e.slot != slot) ==> EquippedItem(s, slot) == None
  {
    if s != [] {
      WearerIs(s[1..], slot);
      forall e | e in s[1..] ensures e.slot != s[0].slot {
        var j :| 0 < j < |s| && s[j] == e;
        assert SlotOf()(s[0]) != SlotOf()(s[j]);
      }
    }
  }

  lemma {:induction false} SameWearer(s: Equipment, t: Equipment, slot: SlotId)
    requires DistinctKeys(s, SlotOf()) && DistinctKeys(t, SlotOf()) && forall e :: e in s && e.slot == slot <==>
        e in t && e.slot == slot
    ensures EquippedItem(s, slot) == EquippedItem(t, slot)
  {
    WearerIs(s, slot);
    WearerIs(t, slot);
    if e :| e in s && e.slot == slot {
      assert e in t;
    }
  }

  /** Equipping keeps the equipment canonical and changes that slot alone. */
  lemma EquippingIsExact(equipment: Equipment, slot: SlotId, item: ItemId)
    requires Canonical(equipment)
    ensures var after := WithEquippedItem(equipment, slot, item);
            && Canonical(after)
            && (forall other :: EquippedItem(after, other) ==
                                if other == slot then Some(item) else EquippedItem(equipment, other))
            && (forall x :: WornCount(after, x) + (if EquippedItem(equipment, slot) == Some(x) then 1 else 0) ==
                            WornCount(equipment, x) + if x == item then 1 else 0)
  {
    var rest := Filter(equipment, OtherSlot(slot));
    var s := rest + [EquippedSlot(slot, item)];
    DistinctSlots(equipment);
    FilterDistinctKeys(equipment, SlotOf(), OtherSlot(slot));
    forall i, j | 0 <= i < j < |s| ensures SlotOf()(s[i]) != SlotOf()(s[j]) {
      assert s[i] in rest;
      if j < |rest| {
        assert SlotOf()(rest[i]) != SlotOf()(rest[j]);
      }
    }
    SortIsStrict(s, SlotOf(), SlotLeq);
    var after := SortBy(s, SlotLeq);
    DistinctSlots(after);
    forall other ensures EquippedItem(after,
                                      other) == if other == slot then Some(item) else EquippedItem(equipment, other) {
      if other == slot {
        WearerIs(after, slot);
        assert EquippedSlot(slot, item) in s;
      } else {
        SameWearer(after, equipment, other);
      }
    }
    forall x ensures WornCount(after, x) + (if EquippedItem(equipment, slot) == Some(x) then 1 else 0) ==
                     WornCount(equipment, x) + if x == item then 1 else 0
    {
      SortWorn(s, x);
      AppendWorn(rest, EquippedSlot(slot, item), x);
      VacateWorn(equipment, slot, x);
    }
  }

  // ----- one actor -----

  ghost predicate WellFormed(actor: ActorInventory)
  {
    Fits(actor.inventory) && Canonical(actor.equipment)
  }

  /** Copies of an item in the inventory and in the equipment. */
  function HeldCount(actor: ActorInventory, item: ItemId): nat
  {
    multiset(actor.inventory.slots)[item] + WornCount(actor.equipment, item)
  }

  /** Copies held before and after differ exactly by what the results grant, drop and consume. */
  ghost predicate Balanced(before: ActorInventory, results: seq<InventoryResult>, after: ActorInventory)
  {
    forall item :: BalancedItem(before, results, after, item)
  }

  predicate BalancedItem(before: ActorInventory, results: seq<InventoryResult>, after: ActorInventory, item: ItemId)
  {
    HeldCount(after, item) + Count(results, Lost(), item) == HeldCount(before, item) + Count(results, Gained(), item)
  }

  lemma BalancedInTurn(a: ActorInventory, r: seq<InventoryResult>, b: ActorInventory, s: seq<InventoryResult>,
                       c: ActorInventory)
    requires Balanced(a, r, b) && Balanced(b, s, c)
    ensures Balanced(a, r + s, c)
  {
    forall item ensures BalancedItem(a, r + s, c, item) {
      assert BalancedItem(a, r, b, item) && BalancedItem(b, s, c, item);
      CountAppend(r, s, Lost(), item);
      CountAppend(r, s, Gained(), item);
    }
  }

  lemma InventoryOpBalances(actor: ActorInventory, op: OpResult)
    requires Conserves(multiset(actor.inventory.slots), op.results, multiset(op.state.slots))
    ensures Balanced(actor, op.results, actor.(inventory := op.state))
  {
    forall item ensures BalancedItem(actor, op.results, actor.(inventory := op.state), item) {
      assert ConservesItem(multiset(actor.inventory.slots), op.results, multiset(op.state.slots), item);
    }
  }

  lemma EquipBalances(actor: ActorInventory, item: ItemId, slot: SlotId)
    requires WellFormed(actor)
    ensures var a := ApplyEquip(actor, item, slot);
            && WellFormed(a.actor) && a.actor.inventory.capacity == actor.inventory.capacity
            && Balanced(actor, a.results, a.actor)
  {
    var index := IndexOf(actor.inventory.slots, item);
    if index < 0 {
      NothingMoves(actor, InventoryRejected(item, NotHeld));
    } else if EquippedItem(actor.equipment, slot).Some? {
      NothingMoves(actor, InventoryRejected(item, SlotOccupied));
    } else {
      EquippingIsExact(actor.equipment, slot, item);
      forall x ensures WornCount(WithEquippedItem(actor.equipment, slot, item),
                                 x) == WornCount(actor.equipment, x) + if x == item then 1 else 0 {
      }
      EquipMoves(actor, index, item, WithEquippedItem(actor.equipment, slot, item), ItemEquipped(item, slot));
    }
  }

  lemma EquipMoves(actor: ActorInventory, index: nat, item: ItemId, equipment: Equipment, r: InventoryResult)
    requires index < |actor.inventory.slots| && actor.inventory.slots[index] == item && !Lost()(r) && !Gained()(r)
    requires forall x :: WornCount(equipment, x) == WornCount(actor.equipment, x) + if x == item then 1 else 0
    ensures Balanced(actor, [r], actor.(inventory := actor.inventory.(slots := RemoveAt(actor.inventory.slots, index)),
                                        equipment := equipment))
  {
    var slots := actor.inventory.slots;
    var after := actor.(inventory := actor.inventory.(slots := RemoveAt(slots, index)), equipment := equipment);
    RemoveOne(slots, index);
    forall x ensures BalancedItem(actor, [r], after, x) {
      CountOne(r, Lost(), x);
      CountOne(r, Gained(), x);
      assert (multiset(after.inventory.slots) + multiset{item})[x] == multiset(slots)[x];
    }
  }

  lemma NothingMoves(actor: ActorInventory, r: InventoryResult)
    requires !Lost()(r) && !Gained()(r)
    ensures Balanced(actor, [r], actor)
  {
    forall x ensures BalancedItem(actor, [r], actor, x) {
      CountOne(r, Lost(), x);
      CountOne(r, Gained(), x);
    }
  }

  lemma ReplaceOne(slots: seq<ItemId>, i: nat, item: ItemId)
    requires i < |slots|
    ensures multiset(slots[i := item]) + multiset{slots[i]} == multiset(slots) + multiset{item}
  {
  }

  lemma SwapBalances(actor: ActorInventory, item: ItemId, slot: SlotId)
    requires WellFormed(actor)
    ensures var a := ApplySwap(actor, item, slot);
            && WellFormed(a.actor) && a.actor.inventory.capacity == actor.inventory.capacity
            && Balanced(actor, a.results, a.actor)
  {
    var index, previous := IndexOf(actor.inventory.slots, item), EquippedItem(actor.equipment, slot);
    if index < 0 {
      NothingMoves(actor, InventoryRejected(item, NotHeld));
    } else if previous.None? {
      NothingMoves(actor, InventoryRejected(item, SlotEmpty));
    } else {
      var a := ApplySwap(actor, item, slot);
      EquippingIsExact(actor.equipment, slot, item);
      var slots, replaced := actor.inventory.slots, actor.inventory.slots[index := previous.value];
      ReplaceOne(slots, index, previous.value);
      forall x ensures BalancedItem(actor, a.results, a.actor, x) {
        CountAppend([a.results[0]], [a.results[1]], Lost(), x);
        CountAppend([a.results[0]], [a.results[1]], Gained(), x);
        assert a.results == [a.results[0]] + [a.results[1]];
        assert (multiset(replaced) + multiset{item})[x] == (multiset(slots) + multiset{previous.value})[x];
      }
    }
  }

  lemma CommandBalances(actor: ActorInventory, c: Command, policy: OverflowPolicy)
    requires WellFormed(actor)
    ensures var a := ApplyCommand(actor, c, policy);
            && WellFormed(a.actor) && a.actor.inventory.capacity == actor.inventory.capacity
            && Balanced(actor, a.results, a.actor)
  {
    match c
    case PickupCommand(_, _, item, at) =>
      GrantConserves(actor.inventory, item, policy, at);
      GrantFits(actor.inventory, item, policy, at);
      InventoryOpBalances(actor, GrantItem(actor.inventory, item, policy, at));
    case DropCommand(_, _, item, at) =>
      DropConserves(actor.inventory, item, at);
      InventoryOpBalances(actor, DropItem(actor.inventory, item, at));
    case ConsumeCommand(_, _, item) =>
      ConsumeConserves(actor.inventory, item);
      InventoryOpBalances(actor, ConsumeItem(actor.inventory, item));
    case EquipCommand(_, _, item, slot) => EquipBalances(actor, item, slot);
    case SwapCommand(_, _, item, slot) => SwapBalances(actor, item, slot);
  }

  // ----- whole batches -----

  function OfActor(k: int): Command -> bool
  {
    (c: Command) => c.actor == k
  }

  function OfOthers(k: int): Command -> bool
  {
    (c: Command) => c.actor != k
  }

  /** What an applier must promise about one command. */
  ghost predicate Balances(apply: Applier)
  {
    forall actor, c :: WellFormed(actor) ==> BalancesAt(apply, actor, c)
  }

  ghost predicate BalancesAt(apply: Applier, actor: ActorInventory, c: Command)
  {
    var a := apply(actor, c);
    && WellFormed(a.actor) && a.actor.inventory.capacity == actor.inventory.capacity
    && Balanced(actor, a.results, a.actor)
  }

  lemma ApplyingBalances(policy: OverflowPolicy)
    ensures Balances(Applying(policy))
  {
    forall actor, c | WellFormed(actor) ensures BalancesAt(Applying(policy), actor, c) {
      CommandBalances(actor, c, policy);
    }
  }

  lemma {:induction false} OwnCommandsBalance(actors: Actors, s: seq<Command>, k: int, apply: Applier)
    requires Balances(apply) && k in actors && WellFormed(actors[k]) && forall c :: c in s ==> c.actor == k
    ensures var after := ProcessAll(actors, s, apply);
            && k in after.actors && WellFormed(after.actors[k])
            && after.actors[k].inventory.capacity == actors[k].inventory.capacity
            && Balanced(actors[k], after.results, after.actors[k])
    decreases s
  {
    if s == [] {
      forall item ensures BalancedItem(actors[k], [], actors[k], item) {
      }
    } else {
      StepBalances(actors, s[0], k, apply);
      var first := Process(actors, s[0], apply);
      OwnCommandsBalance(first.actors, s[1..], k, apply);
      var rest := ProcessAll(first.actors, s[1..], apply);
      BalancedInTurn(actors[k], first.results, first.actors[k], rest.results, rest.actors[k]);
    }
  }

  lemma StepBalances(actors: Actors, c: Command, k: int, apply: Applier)
    requires Balances(apply) && k in actors && WellFormed(actors[k]) && c.actor == k
    ensures var first := Process(actors, c, apply);
            && k in first.actors && WellFormed(first.actors[k])
            && first.actors[k].inventory.capacity == actors[k].inventory.capacity
            && Balanced(actors[k], first.results, first.actors[k])
  {
    var first := Process(actors, c, apply);
    assert BalancesAt(apply, actors[k], c);
    forall item ensures BalancedItem(actors[k], first.results, first.actors[k], item) {
      if Live(actors, c) {
        assert BalancedItem(actors[k], first.results, apply(actors[k], c).actor, item);
      }
    }
  }

  lemma {:induction false} OthersDoNotTouch(actors: Actors, s: seq<Command>, k: int, apply: Applier)
    requires k in actors && forall c :: c in s ==> c.actor != k
    ensures var after := ProcessAll(actors, s, apply).actors; k in after && after[k] == actors[k]
    decreases s
  {
    if s != [] {
      OthersDoNotTouch(Process(actors, s[0], apply).actors, s[1..], k, apply);
    }
  }

  /** An actor ends as if its own commands had been the whole batch, and their results are all in the outcome. */
  lemma ActorsAreIndependent(render: Render, actors: Actors, batch: seq<Command>, k: int, apply: Applier)
    requires k in actors
    ensures var whole := Resolve(render, actors, batch, apply);
            var own := Resolve(render, actors, Filter(batch, OfActor(k)), apply);
            && k in whole.actors && k in own.actors && whole.actors[k] == own.actors[k]
            && multiset(own.results) <= multiset(whole.results)
  {
    var le := NotAfter(render);
    var sorted := SortBy(batch, le);
    CommandPreorder(render);
    EarlyFirst(actors, sorted, OfActor(k), OfOthers(k), apply);
    FilterSort(batch, le, OfActor(k));
    var own := Filter(sorted, OfActor(k));
    var reached := ProcessAll(actors, own, apply);
    ProcessAppend(actors, own, Filter(sorted, OfOthers(k)), apply);
    SequencesGrow(actors, own, apply);
    OthersDoNotTouch(reached.actors, Filter(sorted, OfOthers(k)), k, apply);
  }

  /**
   Over any batch each actor's items are conserved, its capacity is kept and respected, and
   its equipment stays strictly sorted with one item per slot.
   */
  lemma ItemsAreConserved(render: Render, actors: Actors, batch: seq<Command>, k: int, policy: OverflowPolicy)
    requires k in actors && WellFormed(actors[k])
    ensures var whole := Resolve(render, actors, batch, Applying(policy));
            var own := Resolve(render, actors, Filter(batch, OfActor(k)), Applying(policy)).results;
            && k in whole.actors && WellFormed(whole.actors[k])
            && whole.actors[k].inventory.capacity == actors[k].inventory.capacity
            && multiset(own) <= multiset(whole.results)
            && Balanced(actors[k], own, whole.actors[k])
  {
    var apply, own := Applying(policy), Filter(batch, OfActor(k));
    ActorsAreIndependent(render, actors, batch, k, apply);
    ApplyingBalances(policy);
    SortMultiset(own, NotAfter(render));
    OwnCommandsBalance(actors, SortBy(own, NotAfter(render)), k, apply);
  }

  // ----- drops reach the world -----

  ghost predicate SpawnsDrops(results: seq<InventoryResult>)
  {
    forall item :: Count(results, Spawned(), item) == Count(results, Fallen(), item)
  }

  lemma SpawnsInTurn(a: seq<InventoryResult>, b: seq<InventoryResult>)
    requires SpawnsDrops(a) && SpawnsDrops(b)
    ensures SpawnsDrops(a + b)
  {
    forall item ensures Count(a + b, Spawned(), item) == Count(a + b, Fallen(), item) {
      CountAppend(a, b, Spawned(), item);
      CountAppend(a, b, Fallen(), item);
    }
  }

  lemma DropSpawns(item: ItemId, dropped: DroppedReason, at: Option<Vec2>)
    requires at.Some?
    ensures SpawnsDrops([ItemDropped(item, dropped)] + SpawnAt(item, at))
  {
    forall x ensures Count([ItemDropped(item, dropped)] + SpawnAt(item, at), Spawned(), x) ==
                     Count([ItemDropped(item, dropped)] + SpawnAt(item, at), Fallen(), x)
    {
      CountAppend([ItemDropped(item, dropped)], SpawnAt(item, at), Spawned(), x);
      CountAppend([ItemDropped(item, dropped)], SpawnAt(item, at), Fallen(), x);
      CountOne(ItemDropped(item, dropped), Spawned(), x);
      CountOne(ItemDropped(item, dropped), Fallen(), x);
      CountOne(PickupSpawned(item, at.value), Spawned(), x);
      CountOne(PickupSpawned(item, at.value), Fallen(), x);
    }
  }

  lemma NeutralSpawns(r: InventoryResult)
    requires !Spawned()(r) && !Fallen()(r)
    ensures SpawnsDrops([r])
  {
    forall x ensures Count([r], Spawned(), x) == Count([r], Fallen(), x) {
      CountOne(r, Spawned(), x);
      CountOne(r, Fallen(), x);
    }
  }

  /** A pickup or drop that says where it happens; other commands drop nothing. */
  predicate SaysWhere(c: Command)
  {
    c.PickupCommand? || c.DropCommand? ==> c.at.Some?
  }

  lemma CommandSpawnsDrops(actor: ActorInventory, c: Command, policy: OverflowPolicy)
    requires SaysWhere(c)
    ensures SpawnsDrops(ApplyCommand(actor, c, policy).results)
  {
    var results := ApplyCommand(actor, c, policy).results;
    if |results| == 1 {
      NeutralSpawns(results[0]);
    } else if c.DropCommand? {
      DropSpawns(c.item, Requested, c.at);
    } else if c.PickupCommand? {
      var slots := actor.inventory.slots;
      DropSpawns(slots[0], Overflow, c.at);
      NeutralSpawns(ItemGranted(c.item, |slots[1..]|));
      SpawnsInTurn([ItemDropped(slots[0], Overflow)] + SpawnAt(slots[0], c.at), [ItemGranted(c.item, |slots[1..]|)]);
    } else {
      assert results == [results[0]] + [results[1]];
      NeutralSpawns(results[0]);
      NeutralSpawns(results[1]);
      SpawnsInTurn([results[0]], [results[1]]);
    }
  }

  /** When every pickup and drop says where, the world receives exactly the items that fell. */
  lemma {:induction false} EveryDropIsSpawned(actors: Actors, s: seq<Command>, policy: OverflowPolicy)
    requires forall c :: c in s ==> SaysWhere(c)
    ensures SpawnsDrops(ProcessAll(actors, s, Applying(policy)).results)
    decreases s
  {
    if s != [] {
      var apply := Applying(policy);
      var first := Process(actors, s[0], apply);
      EveryDropIsSpawned(first.actors, s[1..], policy);
      if Live(actors, s[0]) {
        CommandSpawnsDrops(actors[s[0].actor], s[0], policy);
      }
      SpawnsInTurn(first.results, ProcessAll(first.actors, s[1..], apply).results);
    }
  }

  // ----- pickups under drop-oldest -----

  function ItemsOf(s: seq<Command>): seq<ItemId>
  {
    seq(|s|, i requires 0 <= i < |s| => s[i].item)
  }

  /** The commands of one actor that a pass consumes: each raises the watermark, the others are stale. */
  function Consumed(last: int, s: seq<Command>): seq<Command>
    decreases s
  {
    if s == [] then []
    else if s[0].sequence > last then [s[0]] + Consumed(s[0].sequence, s[1..])
    else Consumed(last, s[1..])
  }

  ghost predicate RisingFrom(last: int, s: seq<Command>)
  {
    && (forall i :: 0 <= i < |s| ==> s[i].sequence > last)
    && (forall i, j :: 0 <= i < j < |s| ==> s[i].sequence < s[j].sequence)
  }

  lemma {:induction false} ConsumedRises(last: int, s: seq<Command>)
    ensures RisingFrom(last, Consumed(last, s))
    ensures forall c :: c in Consumed(last, s) ==> c in s
    decreases s
  {
    if s != [] {
      ConsumedRises(if s[0].sequence > last then s[0].sequence else last, s[1..]);
    }
  }

  /** In sequence order no sequence above the watermark is lost. */
  lemma {:induction false} ConsumedCovers(last: int, s: seq<Command>, i: nat) returns (d: Command)
    requires i < |s| && s[i].sequence > last
    requires forall i, j :: 0 <= i < j < |s| ==> s[i].sequence <= s[j].sequence
    ensures d in Consumed(last, s) && d.sequence == s[i].sequence
    decreases s
  {
    if s[0].sequence == s[i].sequence {
      d := s[0];
    } else {
      d := ConsumedCovers(if s[0].sequence > last then s[0].sequence else last, s[1..], i - 1);
    }
  }

  lemma {:induction false} RisingIsConsumed(last: int, s: seq<Command>)
    requires RisingFrom(last, s)
    ensures Consumed(last, s) == s
    decreases s
  {
    if s != [] {
      RisingIsConsumed(s[0].sequence, s[1..]);
    }
  }

  ghost predicate PickupsOf(s: seq<Command>, k: int)
  {
    forall c :: c in s ==> c.PickupCommand? && c.actor == k
  }

  lemma {:induction false} PickupsGrantAll(actors: Actors, s: seq<Command>, k: int)
    requires k in actors && PickupsOf(s, k)
    ensures var after := ProcessAll(actors, s, Applying(DropOldest)).actors;
            && k in after
            && after[k].inventory == GrantAll(actors[k].inventory, ItemsOf(Consumed(actors[k].lastSequence, s)))
            && after[k].equipment == actors[k].equipment
    decreases s
  {
    if s != [] {
      var apply, last := Applying(DropOldest), actors[k].lastSequence;
      var next := Process(actors, s[0], apply).actors;
      assert s[0] in s;
      PickupsGrantAll(next, s[1..], k);
      if s[0].sequence > last {
        assert ItemsOf(Consumed(last, s))[1..] == ItemsOf(Consumed(s[0].sequence, s[1..]));
        GrantIgnoresPlace(actors[k].inventory, s[0].item, s[0].at);
      }
    }
  }

  lemma GrantIgnoresPlace(state: InventoryState, item: ItemId, at: Option<Vec2>)
    ensures GrantItem(state, item, DropOldest, at).state == GrantItem(state, item, DropOldest, None).state
  {
  }

  /** The commands of actor `k` in the order in which a pass looks at them. */
  function OwnInOrder(render: Render, batch: seq<Command>, k: int): seq<Command>
  {
    SortBy(Filter(batch, OfActor(k)), NotAfter(render))
  }

  /**
   Under drop-oldest an actor whose commands in the batch are pickups ends with exactly the newest
   `capacity` of its items and the items it consumed, in order, whoever else the batch concerns
   and however many of its commands are stale or repeat a sequence.
   */
  lemma PickupsKeepNewest(render: Render, actors: Actors, batch: seq<Command>, k: int)
    requires k in actors && Fits(actors[k].inventory)
    requires forall c :: c in batch && c.actor == k ==> c.PickupCommand?
    ensures var after := Resolve(render, actors, batch, Applying(DropOldest)).actors;
            var items := ItemsOf(Consumed(actors[k].lastSequence, OwnInOrder(render, batch, k)));
            && k in after
            && after[k].inventory.slots == Newest(actors[k].inventory.slots + items, actors[k].inventory.capacity)
  {
    var own := OwnInOrder(render, batch, k);
    ActorsAreIndependent(render, actors, batch, k, Applying(DropOldest));
    SortMultiset(Filter(batch, OfActor(k)), NotAfter(render));
    PickupsGrantAll(actors, own, k);
    DropOldestKeepsNewest(actors[k].inventory, ItemsOf(Consumed(actors[k].lastSequence, own)));
  }

  /** What is consumed of an actor's commands: one for each of their sequences above the watermark, in rising order. */
  lemma OwnConsumption(render: Render, batch: seq<Command>, k: int, last: int)
    ensures var consumed := Consumed(last, OwnInOrder(render, batch, k));
            && RisingFrom(last, consumed)
            && (forall c :: c in consumed ==> c in batch && c.actor == k)
            && (forall c :: c in batch && c.actor == k && c.sequence > last ==>
                  exists d :: d in consumed && d.sequence == c.sequence)
  {
    var own, le := Filter(batch, OfActor(k)), NotAfter(render);
    CommandPreorder(render);
    SortSorted(own, le);
    SortMultiset(own, le);
    var sorted := SortBy(own, le);
    forall i, j | 0 <= i < j < |sorted| ensures sorted[i].sequence <= sorted[j].sequence {
      assert sorted[i] in own && sorted[j] in own;
      assert le(sorted[i], sorted[j]);
    }
    ConsumedRises(last, sorted);
    forall c | c in batch && c.actor == k && c.sequence > last
      ensures exists d :: d in Consumed(last, sorted) && d.sequence == c.sequence
    {
      assert c in own;
      var i :| 0 <= i < |sorted| && sorted[i] == c;
      var d := ConsumedCovers(last, sorted, i);
    }
  }

  /** When the actor's own pickups are fresh and have sequences of their own, their arrival order does not matter. */
  lemma FreshPickupsKeepNewest(render: Render, actors: Actors, batch: seq<Command>, ordered: seq<Command>, k: int)
    requires k in actors && Fits(actors[k].inventory) && PickupsOf(ordered, k)
    requires RisingFrom(actors[k].lastSequence, ordered)
    requires multiset(Filter(batch, OfActor(k))) == multiset(ordered)
    ensures var after := Resolve(render, actors, batch, Applying(DropOldest)).actors;
            && k in after
            && after[k].inventory.slots == Newest(actors[k].inventory.slots
               + ItemsOf(ordered), actors[k].inventory.capacity)
  {
    var le, own := NotAfter(render), Filter(batch, OfActor(k));
    CommandPreorder(render);
    SameMembers(own, ordered);
    assert TiesAreEqual(ordered, le);
    SortForgetsOrder(ordered, own, le);
    SortOfSorted(ordered, le);
    RisingIsConsumed(actors[k].lastSequence, ordered);
    forall c | c in batch && c.actor == k ensures c.PickupCommand? {
      assert c in own;
    }
    PickupsKeepNewest(render, actors, batch, k);
  }

  // ----- swapping back -----

  /**
   Swapping an item in and then its predecessor back restores the inventory exactly when the
   inventory holds no earlier copy of the predecessor; the equipment is always restored.
   */
  lemma SwapBackRestoresIff(actor: ActorInventory, item: ItemId, slot: SlotId)
    requires Canonical(actor.equipment)
    requires item in actor.inventory.slots && EquippedItem(actor.equipment, slot).Some?
    ensures var previous := EquippedItem(actor.equipment, slot).value;
            var back := ApplySwap(ApplySwap(actor, item, slot).actor, previous, slot).actor;
            && (forall s :: EquippedItem(back.equipment, s) == EquippedItem(actor.equipment, s))
            && (back.inventory == actor.inventory <==>
                  previous !in actor.inventory.slots[..IndexOf(actor.inventory.slots, item)])
  {
    var previous, slots, i := EquippedItem(actor.equipment, slot).value, actor.inventory.slots,
                              IndexOf(actor.inventory.slots, item);
    var there := ApplySwap(actor, item, slot).actor;
    EquippingIsExact(actor.equipment, slot, item);
    EquippingIsExact(there.equipment, slot, previous);
    var swapped := slots[i := previous];
    var j := IndexOf(swapped, previous);
    assert swapped[..i] == slots[..i];
    if previous in slots[..i] {
      var k :| 0 <= k < i && slots[..i][k] == previous;
      assert swapped[k] == previous;
      FirstIndexAtMost(swapped, previous, k);
      assert swapped[j := item][i] == previous && slots[i] == item;
      assert item !in slots[..i];
    } else {
      FirstIndexIs(swapped, previous, i);
      assert swapped[i := item] == slots;
    }
  }

  lemma {:induction false} FirstIndexAtMost(slots: seq<ItemId>, item: ItemId, k: nat)
    requires k < |slots| && slots[k] == item
    ensures 0 <= IndexOf(slots, item) <= k
  {
    if slots[0] != item {
      FirstIndexAtMost(slots[1..], item, k - 1);
    }
  }

  lemma {:induction false} FirstIndexIs(slots: seq<ItemId>, item: ItemId, i: nat)
    requires i < |slots| && slots[i] == item && item !in slots[..i]
    ensures IndexOf(slots, item) == i
  {
    if i > 0 {
      assert slots[..i][0] == slots[0] && slots[..i][1..] == slots[1..][..i - 1];
      FirstIndexIs(slots[1..], item, i - 1);
    }
  }

  /** With an earlier copy of the displaced item in the bag, swapping back puts the copies in another order. */
  lemma SwapBackCanReorder()
    ensures var actor := ActorInventory(InventoryState(["knife", "rope"], 2), [EquippedSlot("hand", "knife")], 0);
            var back := ApplySwap(ApplySwap(actor, "rope", "hand").actor, "knife", "hand").actor;
            back.inventory != actor.inventory
  {
    var slots := ["knife", "rope"];
    var actor := ActorInventory(InventoryState(slots, 2), [EquippedSlot("hand", "knife")], 0);
    FirstIndexIs(slots, "rope", 1);
    assert slots[..1][0] == "knife";
    SwapBackRestoresIff(actor, "rope", "hand");
  }
}
