/**
 What one command does to its actor, told from what the actor holds and wears
 (packages/simulation/src/inventory-ops.ts), and that every consumed command of a batch does it.
 */
module CommandLaws {
  import opened Wrappers
  import opened Sorting
  import opened Text
  import opened Inventory
  import opened InventoryOps
  import opened InventoryOrder
  import opened InventoryLedger

  // ----- one command -----

  /** Something is worn in the slot. */
  predicate Taken(equipment: Equipment, slot: SlotId)
  {
    exists e :: e in equipment && e.slot == slot
  }

  /** `after` wears `item` in the slot and everything else where it was. */
  ghost predicate Dons(before: Equipment, slot: SlotId, item: ItemId, after: Equipment)
  {
    && (forall e :: e in after <==> e == EquippedSlot(slot, item) || (e in before && e.slot != slot))
    && (Canonical(before) ==> Canonical(after))
  }

  /** `after` is `before` with its first copy of `item` replaced by `other`. */
  ghost predicate Exchanges(before: seq<ItemId>, item: ItemId, other: ItemId, after: seq<ItemId>)
  {
    exists i :: 0 <= i < |before| && before[i] == item && item !in before[..i] && after == before[i := other]
  }

  ghost predicate Refuses(before: ActorInventory, item: ItemId, reason: RejectedReason, a: Application)
  {
    a == Application(before, [InventoryRejected(item, reason)])
  }

  /** The actor's bag changed as `op` says and nothing else did. */
  ghost predicate Bags(before: ActorInventory, op: OpResult, a: Application)
  {
    a == Application(before.(inventory := op.state), op.results)
  }

  /** A held item goes into an empty slot. */
  ghost predicate EquipLaw(before: ActorInventory, item: ItemId, slot: SlotId, a: Application)
  {
    if item !in before.inventory.slots then Refuses(before, item, NotHeld, a)
    else if Taken(before.equipment, slot) then Refuses(before, item, SlotOccupied, a)
    else
      && LosesFirst(before.inventory.slots, item, a.actor.inventory.slots)
      && a.actor.inventory.capacity == before.inventory.capacity
      && Dons(before.equipment, slot, item, a.actor.equipment)
      && a.actor.lastSequence == before.lastSequence
      && a.results == [ItemEquipped(item, slot)]
  }

  /** A held item and the one worn in the slot change places. */
  ghost predicate SwapLaw(before: ActorInventory, item: ItemId, slot: SlotId, a: Application)
  {
    if item !in before.inventory.slots then Refuses(before, item, NotHeld, a)
    else if !Taken(before.equipment, slot) then Refuses(before, item, SlotEmpty, a)
    else
      exists worn ::
        && EquippedSlot(slot, worn) in before.equipment
        && Exchanges(before.inventory.slots, item, worn, a.actor.inventory.slots)
        && a.actor.inventory.capacity == before.inventory.capacity
        && Dons(before.equipment, slot, item, a.actor.equipment)
        && a.actor.lastSequence == before.lastSequence
        && a.results == [ItemUnequipped(worn, slot), ItemEquipped(item, slot)]
  }

  /** What each kind of command does, and exactly when and why it is refused. */
  ghost predicate CommandLaw(policy: OverflowPolicy, before: ActorInventory, c: Command, a: Application)
  {
    match c
    case PickupCommand(_, _, item, at) =>
      exists op :: Bags(before, op, a) && PutsIn(before.inventory, item, policy, at, op)
    case DropCommand(_, _, item, at) =>
      exists op :: Bags(before, op, a)
                   && TakesOut(before.inventory, item,
                               if at.Some? then [ItemDropped(item, Requested), PickupSpawned(item, at.value)]
                               else [ItemDropped(item, Requested)], op)
    case ConsumeCommand(_, _, item) =>
      exists op :: Bags(before, op, a) && TakesOut(before.inventory, item, [ItemConsumed(item)], op)
    case EquipCommand(_, _, item, slot) => EquipLaw(before, item, slot, a)
    case SwapCommand(_, _, item, slot) => SwapLaw(before, item, slot, a)
  }

  lemma {:induction false} WornIsTaken(equipment: Equipment, slot: SlotId)
    ensures EquippedItem(equipment, slot).Some? <==> Taken(equipment, slot)
    ensures EquippedItem(equipment, slot).Some? ==>
              EquippedSlot(slot, EquippedItem(equipment, slot).value) in equipment
  {
    if equipment != [] {
      WornIsTaken(equipment[1..], slot);
      if equipment[0].slot == slot {
        assert equipment[0] == EquippedSlot(slot, equipment[0].item);
      } else if Taken(equipment, slot) {
        var e :| e in equipment && e.slot == slot;
        assert e in equipment[1..];
      }
    }
  }

  lemma EquippingDons(equipment: Equipment, slot: SlotId, item: ItemId)
    ensures Dons(equipment, slot, item, WithEquippedItem(equipment, slot, item))
  {
    var others := Filter(equipment, OtherSlot(slot));
    SortMultiset(others + [EquippedSlot(slot, item)], SlotLeq);
    SameMembers(others + [EquippedSlot(slot, item)], WithEquippedItem(equipment, slot, item));
    if Canonical(equipment) {
      EquippingIsExact(equipment, slot, item);
    }
  }

  lemma EquipIsLawful(actor: ActorInventory, item: ItemId, slot: SlotId)
    ensures EquipLaw(actor, item, slot, ApplyEquip(actor, item, slot))
  {
    WornIsTaken(actor.equipment, slot);
    if item in actor.inventory.slots && !Taken(actor.equipment, slot) {
      RemovalLosesFirst(actor.inventory.slots, item);
      EquippingDons(actor.equipment, slot, item);
    }
  }

  lemma SwapIsLawful(actor: ActorInventory, item: ItemId, slot: SlotId)
    ensures SwapLaw(actor, item, slot, ApplySwap(actor, item, slot))
  {
    WornIsTaken(actor.equipment, slot);
    if item in actor.inventory.slots && Taken(actor.equipment, slot) {
      var worn, index := EquippedItem(actor.equipment, slot).value, IndexOf(actor.inventory.slots, item);
      EquippingDons(actor.equipment, slot, item);
      assert Exchanges(actor.inventory.slots, item, worn, actor.inventory.slots[index := worn]);
    }
  }

  /** Every command does what its kind promises, in every state of its actor. */
  lemma CommandIsLawful(policy: OverflowPolicy, actor: ActorInventory, c: Command)
    ensures CommandLaw(policy, actor, c, ApplyCommand(actor, c, policy))
  {
    match c
    case PickupCommand(_, _, item, at) =>
      GrantIsExact(actor.inventory, item, policy, at);
      assert Bags(actor, GrantItem(actor.inventory, item, policy, at), ApplyCommand(actor, c, policy));
    case DropCommand(_, _, item, at) =>
      DropIsExact(actor.inventory, item, at);
      assert Bags(actor, DropItem(actor.inventory, item, at), ApplyCommand(actor, c, policy));
    case ConsumeCommand(_, _, item) =>
      ConsumptionIsExact(actor.inventory, item);
      assert Bags(actor, ConsumeItem(actor.inventory, item), ApplyCommand(actor, c, policy));
    case EquipCommand(_, _, item, slot) => EquipIsLawful(actor, item, slot);
    case SwapCommand(_, _, item, slot) => SwapIsLawful(actor, item, slot);
  }

  // ----- the order of a batch -----

  /** By actor, sequence, name of the tag and text of the payload. */
  predicate InOrder(render: Render, a: Command, b: Command)
  {
    || a.actor < b.actor
    || (a.actor == b.actor
        && (|| a.sequence < b.sequence
            || (a.sequence == b.sequence
                && (|| TextLess(TagName(a), TagName(b))
                    || (TagName(a) == TagName(b) && TextLeq(PayloadKey(render, a), PayloadKey(render, b)))))))
  }

  lemma SameTag(a: Command, b: Command)
    ensures TagName(a) == TagName(b) <==> TagRank(a) == TagRank(b)
  {
    TagOrder(a, b);
    TagOrder(b, a);
    TextTotal(TagName(a), TagName(b));
  }

  /** A batch is gone through once each in that order, whatever order it came in. */
  lemma BatchIsOrdered(render: Render, actors: Actors, batch: seq<Command>, apply: Applier)
      returns (ordered: seq<Command>)
    ensures multiset(ordered) == multiset(batch)
    ensures forall i, j :: 0 <= i < j < |ordered| ==> InOrder(render, ordered[i], ordered[j])
    ensures Resolve(render, actors, batch, apply) == ProcessAll(actors, ordered, apply)
  {
    var le := NotAfter(render);
    ordered := SortBy(batch, le);
    CommandPreorder(render);
    SortMultiset(batch, le);
    SortSorted(batch, le);
    forall i, j | 0 <= i < j < |ordered| ensures InOrder(render, ordered[i], ordered[j]) {
      assert le(ordered[i], ordered[j]);
      SameTag(ordered[i], ordered[j]);
      TagOrder(ordered[i], ordered[j]);
    }
  }

  // ----- whole batches -----

  /** One consumed command: applied as its kind promises, and its sequence becomes the watermark. */
  datatype Stage = Stage(before: ActorInventory, command: Command, applied: Application)

  function StageEnd(stage: Stage): ActorInventory
  {
    stage.applied.actor.(lastSequence := stage.command.sequence)
  }

  /** The stages lead from one state of an actor to another, each lawful. */
  ghost predicate Chained(policy: OverflowPolicy, start: ActorInventory, stages: seq<Stage>, end: ActorInventory)
    decreases stages
  {
    if stages == [] then start == end
    else
      && stages[0].before == start && CommandLaw(policy, start, stages[0].command, stages[0].applied)
      && Chained(policy, StageEnd(stages[0]), stages[1..], end)
  }

  function CommandsOf(stages: seq<Stage>): seq<Command>
  {
    if stages == [] then [] else [stages[0].command] + CommandsOf(stages[1..])
  }

  function ReportOf(stages: seq<Stage>): seq<InventoryResult>
  {
    if stages == [] then [] else stages[0].applied.results + ReportOf(stages[1..])
  }

  lemma {:induction false} OwnCommandsChain(policy: OverflowPolicy, actors: Actors, s: seq<Command>, k: int)
      returns (stages: seq<Stage>)
    requires k in actors && forall c :: c in s ==> c.actor == k
    ensures var after := ProcessAll(actors, s, Applying(policy));
            && k in after.actors && Chained(policy, actors[k], stages, after.actors[k])
            && CommandsOf(stages) == Consumed(actors[k].lastSequence, s) && ReportOf(stages) == after.results
    decreases s
  {
    stages := [];
    if s != [] {
      var first := Process(actors, s[0], Applying(policy));
      assert s[0] in s;
      var rest := OwnCommandsChain(policy, first.actors, s[1..], k);
      if s[0].sequence > actors[k].lastSequence {
        var stage := Stage(actors[k], s[0], ApplyCommand(actors[k], s[0], policy));
        CommandIsLawful(policy, actors[k], s[0]);
        stages := [stage] + rest;
        assert stages[1..] == rest;
      } else {
        stages := rest;
        assert first.results + ReportOf(rest) == ReportOf(rest);
      }
    }
  }

  /**
   In any batch each known actor goes through a chain of lawful commands: exactly those of its own
   that the pass consumes, in their order; their results are all in the outcome.
   */
  lemma BatchIsLawful(render: Render, policy: OverflowPolicy, actors: Actors, batch: seq<Command>, k: int)
      returns (stages: seq<Stage>)
    requires k in actors
    ensures var whole := Resolve(render, actors, batch, Applying(policy));
            && k in whole.actors && Chained(policy, actors[k], stages, whole.actors[k])
            && CommandsOf(stages) == Consumed(actors[k].lastSequence, OwnInOrder(render, batch, k))
            && multiset(ReportOf(stages)) <= multiset(whole.results)
  {
    var own := Filter(batch, OfActor(k));
    ActorsAreIndependent(render, actors, batch, k, Applying(policy));
    SortMultiset(own, NotAfter(render));
    SameMembers(own, SortBy(own, NotAfter(render)));
    stages := OwnCommandsChain(policy, actors, OwnInOrder(render, batch, k), k);
  }
}
