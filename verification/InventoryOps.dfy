/**
 The authoritative command log (packages/simulation/src/inventory-ops.ts): equipment,
 sequenced commands, their canonical order and their resolution.
 */
module InventoryOps {
  import opened Wrappers
  import opened Sorting
  import opened Text
  import opened Geometry
  import opened Inventory

  // ----- equipment -----

  datatype EquippedSlot = EquippedSlot(slot: SlotId, item: ItemId)

  type Equipment = seq<EquippedSlot>

  function EquippedItem(equipment: Equipment, slot: SlotId): Option<ItemId>
  {
    if equipment == [] then None
    else if equipment[0].slot == slot then Some(equipment[0].item)
    else EquippedItem(equipment[1..], slot)
  }

  predicate SlotLeq(a: EquippedSlot, b: EquippedSlot)
  {
    TextLeq(a.slot, b.slot)
  }

  function OtherSlot(slot: SlotId): EquippedSlot -> bool
  {
    (e: EquippedSlot) => e.slot != slot
  }

  function WithEquippedItem(equipment: Equipment, slot: SlotId, item: ItemId): Equipment
  {
    SortBy(Filter(equipment, OtherSlot(slot)) + [EquippedSlot(slot, item)], SlotLeq)
  }

  // ----- commands -----

  datatype Command =
    | PickupCommand(actor: int, sequence: int, item: ItemId, at: Option<Vec2>)
    | DropCommand(actor: int, sequence: int, item: ItemId, at: Option<Vec2>)
    | ConsumeCommand(actor: int, sequence: int, item: ItemId)
    | EquipCommand(actor: int, sequence: int, item: ItemId, slot: SlotId)
    | SwapCommand(actor: int, sequence: int, item: ItemId, slot: SlotId)

  function TagName(c: Command): string
  {
    match c
    case PickupCommand(_, _, _, _) => "PickupCommand"
    case DropCommand(_, _, _, _) => "DropCommand"
    case ConsumeCommand(_, _, _) => "ConsumeCommand"
    case EquipCommand(_, _, _, _) => "EquipCommand"
    case SwapCommand(_, _, _, _) => "SwapCommand"
  }

  /** The position of a command's tag in the order of tag names. */
  function TagRank(c: Command): nat
  {
    match c
    case ConsumeCommand(_, _, _) => 0
    case DropCommand(_, _, _, _) => 1
    case EquipCommand(_, _, _, _) => 2
    case PickupCommand(_, _, _, _) => 3
    case SwapCommand(_, _, _, _) => 4
  }

  lemma TagOrder(a: Command, b: Command)
    ensures TextLess(TagName(a), TagName(b)) <==> TagRank(a) < TagRank(b)
  {
    assert TagName(a)[0] == "CDEPS"[TagRank(a)] && TagName(b)[0] == "CDEPS"[TagRank(b)];
    if TagRank(a) == TagRank(b) {
      assert TagName(a) == TagName(b);
    }
  }

  /** The text of a number inside a template string. */
  type Render = real -> string

  function SlotText(c: Command): string
  {
    if c.EquipCommand? || c.SwapCommand? then c.slot else ""
  }

  function PlaceText(render: Render, c: Command): string
  {
    if (c.PickupCommand? || c.DropCommand?) && c.at.Some? then render(c.at.value.x) + "," + render(c.at.value.y) else ""
  }

  function PayloadKey(render: Render, c: Command): string
  {
    c.item + "|" + SlotText(c) + "|" + PlaceText(render, c)
  }

  /** The comparator is not positive: actor, then sequence, then tag, then payload key. */
  function NotAfter(render: Render): (Command, Command) -> bool
  {
    (a: Command, b: Command) =>
      if a.actor != b.actor then a.actor < b.actor
      else if a.sequence != b.sequence then a.sequence < b.sequence
      else if TagRank(a) != TagRank(b) then TagRank(a) < TagRank(b)
      else TextLeq(PayloadKey(render, a), PayloadKey(render, b))
  }

  lemma CommandPreorder(render: Render)
    ensures TotalPreorder(NotAfter(render))
  {
    var le := NotAfter(render);
    TextPreorder();
    forall a, b ensures le(a, b) || le(b, a) {
      var p, q := PayloadKey(render, a), PayloadKey(render, b);
      assert TextLeq(p, q) || TextLeq(q, p);
    }
    forall a, b, c | le(a, b) && le(b, c) ensures le(a, c) {
      var p, q, r := PayloadKey(render, a), PayloadKey(render, b), PayloadKey(render, c);
      assert TextLeq(p, q) && TextLeq(q, r) ==> TextLeq(p, r);
    }
  }

  // ----- applying one command -----

  datatype ActorInventory = ActorInventory(inventory: InventoryState, equipment: Equipment, lastSequence: int)

  datatype Application = Application(actor: ActorInventory, results: seq<InventoryResult>)

  function MakeActorInventory(inventory: InventoryState): ActorInventory
  {
    ActorInventory(inventory, [], -1)
  }

  function WithInventory(actor: ActorInventory, op: OpResult): Application
  {
    Application(actor.(inventory := op.state), op.results)
  }

  function Rejected(actor: ActorInventory, item: ItemId, reason: RejectedReason): Application
  {
    Application(actor, [InventoryRejected(item, reason)])
  }

  function ApplyEquip(actor: ActorInventory, item: ItemId, slot: SlotId): Application
  {
    var index := IndexOf(actor.inventory.slots, item);
    if index < 0 then Rejected(actor, item, NotHeld)
    else if EquippedItem(actor.equipment, slot).Some? then Rejected(actor, item, SlotOccupied)
    else
      Application(actor.(inventory := actor.inventory.(slots := RemoveAt(actor.inventory.slots, index)),
                         equipment := WithEquippedItem(actor.equipment, slot, item)),
                  [ItemEquipped(item, slot)])
  }

  function ApplySwap(actor: ActorInventory, item: ItemId, slot: SlotId): Application
  {
    var index := IndexOf(actor.inventory.slots, item);
    if index < 0 then Rejected(actor, item, NotHeld)
    else
      var previous := EquippedItem(actor.equipment, slot);
      if previous.None? then Rejected(actor, item, SlotEmpty)
      else
        Application(actor.(inventory := actor.inventory.(slots := actor.inventory.slots[index := previous.value]),
                           equipment := WithEquippedItem(actor.equipment, slot, item)),
                    [ItemUnequipped(previous.value, slot), ItemEquipped(item, slot)])
  }

  function ApplyCommand(actor: ActorInventory, c: Command, policy: OverflowPolicy): Application
  {
    match c
    case PickupCommand(_, _, item, at) => WithInventory(actor, GrantItem(actor.inventory, item, policy, at))
    case DropCommand(_, _, item, at) => WithInventory(actor, DropItem(actor.inventory, item, at))
    case ConsumeCommand(_, _, item) => WithInventory(actor, ConsumeItem(actor.inventory, item))
    case EquipCommand(_, _, item, slot) => ApplyEquip(actor, item, slot)
    case SwapCommand(_, _, item, slot) => ApplySwap(actor, item, slot)
  }

  /** What applying a command does to its actor. */
  type Applier = (ActorInventory, Command) -> Application

  function Applying(policy: OverflowPolicy): Applier
  {
    (actor: ActorInventory, c: Command) => ApplyCommand(actor, c, policy)
  }

  // ----- resolving a batch -----

  type Actors = map<int, ActorInventory>

  datatype Outcome = Outcome(actors: Actors, results: seq<InventoryResult>)

  /** The actor is known and has not yet consumed this sequence. */
  predicate Live(actors: Actors, c: Command)
  {
    c.actor in actors && c.sequence > actors[c.actor].lastSequence
  }

  function Process(actors: Actors, c: Command, apply: Applier): Outcome
  {
    if !Live(actors, c) then Outcome(actors, [])
    else
      var applied := apply(actors[c.actor], c);
      Outcome(actors[c.actor := applied.actor.(lastSequence := c.sequence)], applied.results)
  }

  function ProcessAll(actors: Actors, commands: seq<Command>, apply: Applier): Outcome
    decreases commands
  {
    if commands == [] then Outcome(actors, [])
    else
      var first := Process(actors, commands[0], apply);
      var rest := ProcessAll(first.actors, commands[1..], apply);
      Outcome(rest.actors, first.results + rest.results)
  }

  function Resolve(render: Render, actors: Actors, commands: seq<Command>, apply: Applier): Outcome
  {
    ProcessAll(actors, SortBy(commands, NotAfter(render)), apply)
  }

  lemma {:induction false} ProcessAppend(actors: Actors, s: seq<Command>, t: seq<Command>, apply: Applier)
    ensures var first := ProcessAll(actors, s, apply);
            var second := ProcessAll(first.actors, t, apply);
            ProcessAll(actors, s + t, apply) == Outcome(second.actors, first.results + second.results)
    decreases s
  {
    if s == [] {
      assert s + t == t;
    } else {
      assert (s + t)[0] == s[0] && (s + t)[1..] == s[1..] + t;
      var first := Process(actors, s[0], apply);
      var middle := ProcessAll(first.actors, s[1..], apply);
      ProcessAppend(first.actors, s[1..], t, apply);
      Regroup(first.results, middle.results, ProcessAll(middle.actors, t, apply).results);
    }
  }

  lemma ProcessOne(actors: Actors, c: Command, apply: Applier)
    ensures ProcessAll(actors, [c], apply) == Process(actors, c, apply)
  {
    assert ProcessAll(Process(actors, c, apply).actors, [], apply) == Outcome(Process(actors, c, apply).actors, []);
  }

  method ResolveInventoryCommands(render: Render, initial: Actors, commands: seq<Command>, policy: OverflowPolicy)
    returns (actors: Actors, results: seq<InventoryResult>)
    ensures Outcome(actors, results) == Resolve(render, initial, commands, Applying(policy))
  {
    actors, results := initial, [];
    var sorted := SortBy(commands, NotAfter(render));
    var i := 0;
    while i < |sorted|
      invariant 0 <= i <= |sorted|
      invariant Outcome(actors, results) == ProcessAll(initial, sorted[..i], Applying(policy))
    {
      var command := sorted[i];
      ProcessAppend(initial, sorted[..i], [command], Applying(policy));
      ProcessOne(actors, command, Applying(policy));
      assert sorted[..i + 1] == sorted[..i] + [command];
      if command.actor in actors && command.sequence > actors[command.actor].lastSequence {
        var applied := ApplyCommand(actors[command.actor], command, policy);
        actors := actors[command.actor := applied.actor.(lastSequence := command.sequence)];
        results := results + applied.results;
      }
      i := i + 1;
    }
    assert sorted[..i] == sorted;
  }
}
