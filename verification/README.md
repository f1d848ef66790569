# Verified models of the simulation, the spawn layout and the source index

This project models the parts of the repository whose correctness rests on several functions
agreeing with each other, and proves that they do.

- **The combat kernel** (`packages/simulation/src`). A tick advances weapons, resolves fire
  intents, sweeps projectiles and writes health through a world port. What each delivery does is
  split into the hits it *plans* (geometry and entropy only) and their *application* to health;
  the resolvers, written as the loops of the source, are proved to interleave the two without any
  difference. On top of that: the grid index is invisible to every tick and every run, a
  projectile flown tick by tick is the projectile resolved at once, health is accounted for over
  whole runs, and projectiles have unique ids and bounded lives.
- **The inventory command log** (`inventory-ops.ts`, `inventory.ts`). When the arrival order of a
  batch matters (an exact condition), what a replay does, where a stream may be cut, and that no
  item is ever created or lost.
- **Spawn layout and team topology** (`plugin-battle-royale`). The greedy spread order is a
  farthest-first traversal with its factor-two guarantee on every prefix; the derived teams pass
  the policy they are checked against.
- **The generation-guarded source index** (`behavior-reference-index.ts`) as a state machine over
  its interleaved promise callbacks.
- **Weapons, ammunition, entropy and loot**, where a counting or conservation argument is behind
  what the source promises.

## How the model is laid out

| module | models |
|---|---|
| `Sorting`, `Text`, `Wrappers` | `filter`, the stable `sort`, the order of strings, optional values |
| `Geometry`, `Targeting` | `geometry.ts`, and who a ray, sweep, blast or swing reaches |
| `Broadphase`, `World` | `broadphase.ts`, `world.ts`, the exclusion of a wielder |
| `Damage`, `Impact` | `health.ts`, `damage.ts`, `applyHit` and the health ledger |
| `Delivery`, `Resolvers` | `delivery.ts`: the plans of hits and the loops that land them |
| `DeliveryLaws`, `BounceLaws`, `FlightLaws`, `PlanLaws` | what the plans mean over the whole scene, family by family |
| `Projectiles`, `FlightExamples`, `ProjectileLife` | `projectile.ts`, its agreement with whole flights, identity and lifetime over runs |
| `Combat`, `Orchestrator`, `FireOrder`, `CombatRuns`, `ShooterSafety` | `combat.ts`: the tick, its loops, the order of intents, and runs of ticks |
| `ShotLaws`, `TickLaws`, `WeaponRuns` | what a trigger pull, a tick and a run do to the world and to the weapons |
| `Weapon`, `Ammo`, `Rng`, `Loot` | the files of the same names |
| `Inventory`, `InventoryOps`, `CommandLaws`, `InventoryOrder`, `InventoryLedger`, `Defeat` | `inventory.ts`, `inventory-ops.ts` |
| `SpawnLayout`, `TeamTopology` | the battle-royale layout and teams |
| `ReferenceIndex` | the desktop source index |

Code that the source writes as loops over mutable state is a method or a class here, and its
postcondition equates the new state with a specification function; the laws are then proved about
that function.

## Conventions

- Numbers that the source keeps as doubles are exact reals. Every equality between two ways of
  computing a number is an equality in exact arithmetic, not a statement about rounding.
- `Math.hypot`, `cos`, `sin` and `acos` are parameters (`Maths`). Only `hypot` has a law: it is not
  negative and its square is the sum of the squares. `Math.sqrt` in `SpawnLayout` is a parameter
  with the same kind of law.
- Entropy is an arbitrary stream of draws (`Rng.Draws`); a generator is a stream and a position.
- The rendering of a number inside a template string, `localeCompare` and a mode's hostility
  policy are parameters. Strings are sequences of characters ordered by scalar value; the source
  orders by UTF-16 unit, which differs only where characters beyond the basic plane are compared.
- A reference to an entity, a command or a projectile is its id; a promise chain is its number.

## Findings

Places where the code does not do what a caller might expect. Each has the exact condition and a
concrete input.

- `resolveInventoryCommands` is not independent of arrival order for all batches. Two equips (or
  two swaps) of one actor and sequence tie when `item|slot` reads the same for different items, as
  in item `a|b` with slot `c` and item `a` with slot `b|c`; then the first to arrive wins
  (`InventoryOrder.OrderCanMatter`). The order is forgotten if and only if no *leading* command
  collides in this way (`InventoryOrder.ArrivalOrderIsForgottenIff`), which ids without `|` guarantee.
- The nudge after a bounce is meant to keep the next leg from meeting the same wall again. It does
  so exactly when the leg starts outside the wall or within a nudge of leaving it
  (`BounceLaws.NudgeClearsTheWallIff`). A shot fired from inside a blocker meets it at once, spends
  no range, is still inside after the bounce (`BounceLaws.StuckInsideABox`) and reaches nobody ahead
  of its start (`BounceLaws.NothingAheadFromInside`).
- A projectile stepped tick by tick and its whole flight resolved at once agree for every delivery
  that `validateDamageDelivery` accepts (`Projectiles.SteppedFlightAgrees`). Without validation they
  can part: a lifetime below one tick still flies its first tick (`FlightExamples.ShortLifeDiffers`),
  and a negative speed counts distance down in one resolver and up in the other
  (`FlightExamples.NegativeSpeedDiffers`). `Projectiles.SteppedFlightIsWholeFlight` is the exact
  condition for every delivery.
- For an inverted box the slab test reports contacts although the box holds no point
  (`Geometry.InvertedBoxIsMisjudged`); it is right on every segment if and only if the bounds are
  in order (`Geometry.SlabTestIsExactIff`).
- The normal reported for a wall without thickness can point along the motion
  (`Geometry.FlatBoxNormalFollows`); on a proper box it opposes it on every segment if and only if
  the box has width and height (`Geometry.NormalsOpposeIff`). Reflection does not depend on the
  sign, so bounces are right.
- Fire intents are sorted by entity and weapon, and two different intents for one weapon tie: the
  first to arrive fires first, and a tick can end differently (`FireOrder.IntentOrderCanMatter`).
  The processing order is independent of arrival if and only if no two different intents fire the
  same weapon (`FireOrder.FiringOrderIsForgottenIff`), and then so is the tick
  (`FireOrder.TickForgetsIntentOrder`).
- `nextInt` accepts some draw if and only if its span is at most 2^32 (`Rng.AcceptsSomethingIff`);
  at one more its loop cannot end (`Rng.OversizedSpanRejectsAll`).
- Swapping back can put copies of an item in another order (`InventoryLedger.SwapBackCanReorder`);
  the exact condition is `InventoryLedger.SwapBackRestoresIff`.

## Model

| member | source | states |
|---|---|---|
| Geometry.SegmentIntersectsAabb | packages/simulation/src/geometry.ts:133-181 | the slab test is true exactly when some point of the closed segment is in the grown closed box |
| Geometry.ProperBoxMeeting | packages/simulation/src/geometry.ts:133-181 | on a box with ordered bounds, meeting means plain containment of some point of the segment, in both directions |
| Geometry.GrownBoxHolds | packages/simulation/src/geometry.ts:133-181 | a box grown by a body's radius holds exactly the points within that margin of some point of the box, axis by axis |
| Geometry.InvertedBoxIsMisjudged | packages/simulation/src/geometry.ts:133-181 | a concrete inverted box that holds no point of the segment and is still reported as met |
| Geometry.SlabTestIsExactIff | packages/simulation/src/geometry.ts:133-181 | the test agrees with containment on every segment if and only if the box's bounds are in order |
| Geometry.SegmentAabbEntry | packages/simulation/src/geometry.ts:247-311 | the loop-free slab code with its swaps and normal bookkeeping computes the first-contact function |
| Geometry.EntryIsFirstContact | packages/simulation/src/geometry.ts:247-311 | an entry is reported exactly on contact, and its fraction is the least at which the segment touches the box |
| Geometry.EntryNormalOpposes | packages/simulation/src/geometry.ts:247-311 | a contact after the start is on a face whose outward normal is reported, and the normal opposes the motion exactly when that axis of the box is not inverted, nor flat for backward motion |
| Geometry.SolidBoxNormalOpposes | packages/simulation/src/geometry.ts:247-311 | on a box of positive width and height the normal opposes the motion at every contact after the start |
| Geometry.NormalsOpposeIff | packages/simulation/src/geometry.ts:247-311 | on a proper box the normals oppose the motion at every contact after the start of every segment if and only if the box has width and height |
| Geometry.EntryAtStart | packages/simulation/src/geometry.ts:247-311 | a contact at the very start of a segment reports the left face |
| Geometry.CornerIsVertical | packages/simulation/src/geometry.ts:247-311 | a box entered through both axes at once reports a left or right face |
| Geometry.FlatBoxNormalFollows | packages/simulation/src/geometry.ts:263-283 | a concrete wall without thickness whose reported normal points along the motion |
| Geometry.ReflectionLaws | packages/simulation/src/geometry.ts:313-317 | for any unit normal, reflecting keeps the length, negates the component along the normal, keeps the one across it and undoes itself |
| Geometry.SegmentDistanceIsMinimum | packages/simulation/src/geometry.ts:231-240 | the computed distance is attained on the segment and no point of the segment is nearer |
| Geometry.NormalizedLengthIsSpeed | packages/simulation/src/geometry.ts:49-56 | a normalised vector scaled by any speed has the size of that speed as its length, zero vectors included |
| Geometry.NormalizedIsDirection | packages/simulation/src/geometry.ts:49-56 | a normalised vector has length one, times the old length it is the old vector, and for zero it is the x axis |
| Geometry.RotationTurns | packages/simulation/src/geometry.ts:58-66 | a rotated vector has the cosine of the angle along the old one and the sine across it |
| Geometry.RayMeetsIff | packages/simulation/src/geometry.ts:207-224 | a ray reports a way exactly when the point of its line nearest to the target lies that far out, within the range, and within the hit radius of the target |
| Damage.HitIsAccounted | packages/simulation/src/damage.ts:78-123 | one hit takes exactly the reported amount from its target and nothing from anybody else, keeps pools in bounds, leaves the defeated alone, and reports a defeat exactly when the target goes down |
| Damage.HitTakes | packages/simulation/src/damage.ts:78-123 | every outcome with its exact condition: already defeated, refused by the policy, no effect, or health taken; what is taken is the amount, capped by what is left, and whatever stands above the maximum |
| Damage.HitTakesTheLesser | packages/simulation/src/health.ts:69-75 | a standing target within its pool that may be hurt loses and reports exactly the lesser of the amount and what it had, and is reported defeated exactly when the amount is not less |
| Impact.HitsBalance | packages/simulation/src/delivery.ts:356-373 | any list of landed hits keeps the health ledger: losses equal reported amounts, and one defeat report for each entity that went down |
| Impact.UntargetedIsUntouched | packages/simulation/src/delivery.ts:356-373 | an entity that no hit targets keeps its pool and appears in no outcome |
| Impact.ApplyHitsAppend | packages/simulation/src/delivery.ts:356-373 | landing two lists of hits in a row is landing their concatenation |
| Impact.HitsAddUp | packages/simulation/src/delivery.ts:356-373 | however damage is split into hits, an entity loses the lesser of all that is asked of it and what it had, and nothing when the policy protects it |
| Impact.EveryHitIsAnswered | packages/simulation/src/delivery.ts:356-373 | each hit has one outcome, on its own target, in order |
| Impact.ImpulsesAreExact | packages/simulation/src/delivery.ts:364-372 | the impulses are those of the hits with positive knockback whose outcome took health, in order |
| Impact.ImpulseIsTheHit | packages/simulation/src/delivery.ts:364-372 | an impulse has the strength of its hit and the hit's direction |
| Impact.ImpulsesComeFromHits | packages/simulation/src/delivery.ts:356-373 | every impulse of a resolution comes from a landed hit with positive knockback and has that strength |
| Broadphase.UniformGrid.constructor | packages/simulation/src/broadphase.ts:89-118 | every bucket holds exactly the entries of its cell in arrival order |
| Broadphase.UniformGrid.QueryAabb | packages/simulation/src/broadphase.ts:139-185 | whichever branch runs, the answer is the sorted ids of the entries in the box, or everybody for an inverted box |
| Broadphase.UniformGrid.WalkCells | packages/simulation/src/broadphase.ts:169-184 | the nested cell walk collects each entry of the box once and nothing else |
| Broadphase.AnswerIsExact | packages/simulation/src/broadphase.ts:73-188 | over distinct entities an answer is strictly ascending and holds an id exactly when that entity is in the box |
| World.ExcludingIsFaithful | packages/simulation/src/combat.ts:203-225 | hiding a wielder keeps a faithful index faithful and commutes with dropping the index |
| World.ExcludingHidesOne | packages/simulation/src/combat.ts:203-225 | the view of a wielder lacks that one entity, in the enumeration and in every index answer, and nothing else |
| World.MakeSceneIsFaithful | packages/simulation/src/world.ts:94-142 | the reference world's grid never misses a positioned entity in a box and never names a stranger |
| World.SeedsAreLast | packages/simulation/src/world.ts:94-111 | of the seeds of an entity the last one gives its health, and the last that names one its team and place |
| World.View.SceneIsFaithful | packages/simulation/src/world.ts:94-142 | the scene behind a port of a valid world, with or without a hidden wielder, is always faithful |
| World.CombatWorld.constructor | packages/simulation/src/world.ts:94-111 | the maps hold, for each entity, the last seed's health and the last team and position given |
| World.CombatWorld.QueryIndex | packages/simulation/src/world.ts:112-128 | building the index on first use and reusing it later give the same answer at any time |
| World.CombatWorld.SetHealth | packages/simulation/src/world.ts:132-138 | exactly one pool changes, and a memoised index stays right even when the write adds an entity |
| World.View.ApplyDamage | packages/simulation/src/world.ts:55-78 | one hit through the port changes health as the damage rules say and never the enumeration; a missing target is a no-op |
| World.View.CandidatesIn | packages/simulation/src/delivery.ts:344-353 | narrowing gives the index answer when there is one and the full ascending enumeration otherwise, minus the wielder |
| Targeting.ReachIsBounded | packages/simulation/src/delivery.ts:344-408 | every point that the ray, sweep, blast or swing test accepts lies in the box handed to the index |
| Targeting.IndexReachesTheSame | packages/simulation/src/world.ts:38-46 | through any faithful index a probe reaches the same targets in the same order as by scanning everybody |
| Targeting.ReachMeansMeets | packages/simulation/src/delivery.ts:375-408 | ray, sweep, blast and swing accept a point exactly when it is met: by the nearest point of the line, by some point of the path, by distance, by distance and angle; the way reported is the way there |
| Targeting.SweepStrikesTheNearest | packages/simulation/src/projectile.ts:183-222 | no tunnelling: a sweep strikes exactly when some entity comes within the radius of some point of the path, and strikes the least by distance then id |
| Targeting.ProjectileBlocked | packages/simulation/src/projectile.ts:163-181 | the blocker loop answers whether some projectile-stopping box, grown by the radius, meets the segment |
| Delivery.PlanIgnoresIndex | packages/simulation/src/delivery.ts:344-408 | for every delivery family the planned hits are the same with and without a faithful index |
| Delivery.PlanTargetsEntities | packages/simulation/src/delivery.ts:687-722 | every planned hit targets an entity the view enumerates, so never the hidden wielder |
| DeliveryLaws.RayHitsNearestClear | packages/simulation/src/delivery.ts:430-447 | a single-target ray hits exactly the nearest reached entity that no geometry shields, and nobody when all are shielded |
| DeliveryLaws.PierceGoesThrough | packages/simulation/src/delivery.ts:449-469 | a pierce hits the reached entities nearest first and stops only at the first shielded one, at its budget, or at the end |
| DeliveryLaws.BlastHitsExactly | packages/simulation/src/delivery.ts:618-647 | an explosion hits exactly the entities in its radius, except shielded ones when sight is required, each once in id order |
| DeliveryLaws.SwingHitsExactly | packages/simulation/src/delivery.ts:649-679 | a swing hits exactly the entities within length and arc, each once in id order |
| PlanLaws.PlanIsLawful | packages/simulation/src/delivery.ts:687-722 | each of the nine families plans what it promises: hitscan, beam and charge one hit on the nearest entity met in sight or none when all are shielded, pellets one such ray each, and so on |
| PlanLaws.FalloffIsExact | packages/simulation/src/falloff.ts:37-49 | the multiplier is all up to the start, the clamped lowest share from the end on, and linear between them |
| PlanLaws.FalloffNeverRises | packages/simulation/src/falloff.ts:37-49 | damage never grows with distance and its share stays between the lowest and all |
| PlanLaws.ChargeIsExact | packages/simulation/src/delivery.ts:495-506 | a charge deals its maximum with no held time or a full charge, its minimum at none, and in proportion between |
| PlanLaws.HitLands | packages/simulation/src/delivery.ts:430-447 | a hit is on the entity met, deals the damage left over the way and pushes from the origin to the target |
| PlanLaws.SwingLands | packages/simulation/src/delivery.ts:649-679 | a swing deals all its damage and pushes away from the wielder, or along the aim when on top of the target |
| PlanLaws.PelletIsJittered | packages/simulation/src/delivery.ts:471-478 | a pellet is turned off the aim by an angle that a draw places evenly between minus and plus half the spread |
| BounceLaws.BounceHitsTheFirstMet | packages/simulation/src/delivery.ts:583-616 | a bouncing shot hits exactly the nearest entity met, no later than the wall, on the first flown leg on which anybody is met, and nobody when no leg within the bounce budget and the range meets anybody |
| BounceLaws.NearestEntryIsEarliest | packages/simulation/src/delivery.ts:565-581 | the wall of a leg is attained by a projectile-stopping blocker, no such blocker is touched sooner, ties go to the first, and there is none exactly when nothing blocks |
| BounceLaws.EarliestWallIsUnique | packages/simulation/src/delivery.ts:565-581 | the earliest wall is determined by the blockers and the segment |
| BounceLaws.BounceReflects | packages/simulation/src/delivery.ts:607-613 | after a contact the shot goes on in the reflected direction, from the contact and a nudge of 1e-6 along it, with the range not yet flown |
| BounceLaws.BeyondMeansFarther | packages/simulation/src/delivery.ts:592-596 | a target is left out exactly when it is farther along the leg than the wall |
| BounceLaws.RangeIsSpent | packages/simulation/src/delivery.ts:607-613 | the way to the wall and the range of the next leg add up to the old range, and directions stay unit vectors |
| BounceLaws.ShotSpendsItsRange | packages/simulation/src/delivery.ts:583-616 | on every leg a shot flies, the direction is a unit vector, the remaining range lies between zero and the range, and it adds up to the range with the ways flown to the walls so far |
| BounceLaws.BounceLeavesTheWall | packages/simulation/src/delivery.ts:607-613 | after a contact later than its start a shot never meets the same box again on the next leg, however long |
| BounceLaws.NudgeClearsTheWallIff | packages/simulation/src/delivery.ts:611-613 | the nudge clears the wall exactly when the leg starts outside the box or within a nudge of leaving it |
| BounceLaws.StuckInsideABox | packages/simulation/src/delivery.ts:607-613 | a concrete shot from inside a box that meets it at once, keeps its whole range and is not cleared |
| BounceLaws.NothingAheadFromInside | packages/simulation/src/delivery.ts:592-599 | a leg that starts inside a projectile-stopping box reaches nobody ahead of its start |
| FlightLaws.FlightHitsFirstMet | packages/simulation/src/delivery.ts:508-558 | a flight hits the nearest entity of the first tick n on which anybody comes within its radius, counting n times the speed plus the way in that tick, unless it is blocked on that tick or before or its lifetime ends, and then nobody |
| FlightLaws.PelletHitsNearestClear | packages/simulation/src/delivery.ts:471-493 | each pellet hits the nearest reached entity of its own jittered ray that nothing shields |
| FlightLaws.SpreadIsItsPellets | packages/simulation/src/delivery.ts:471-493 | a spread is the hits of its pellets in turn, one draw each |
| Resolvers.ResolveDelivery | packages/simulation/src/delivery.ts:687-722 | the dispatching resolver leaves the health, outcomes, impulses (direction and strength) and generator position that landing the plan of its starting scene gives, and that plan is what the delivery's family promises |
| Resolvers.ResolveSingleRay | packages/simulation/src/delivery.ts:430-447 | the line-of-sight loop lands the plan of a single ray |
| Resolvers.HitThrough | packages/simulation/src/delivery.ts:449-469 | the pierce loop lands the pierce plan |
| Resolvers.ResolvePellet | packages/simulation/src/delivery.ts:471-493 | the pellet loop lands one jittered ray per pellet and draws one float each |
| Resolvers.ResolveProjectile | packages/simulation/src/delivery.ts:508-558 | the whole-flight loop lands the flight plan |
| Resolvers.NearestBlockerEntry | packages/simulation/src/delivery.ts:565-581 | the loop returns the earliest wall: attained by a projectile-stopping blocker, none touched sooner, absent exactly when nothing blocks |
| Resolvers.ResolveBounce | packages/simulation/src/delivery.ts:583-616 | the reflection loop lands the hit on the nearest entity met on the first flown leg that meets anybody, or nothing |
| Resolvers.HitArea | packages/simulation/src/delivery.ts:618-679 | the area loop lands the plan of an explosion or a swing |
| Projectiles.AdvanceProjectile | packages/simulation/src/projectile.ts:232-318 | one tick of flight in its own form gives the survivor, events, impulses and health of the step function |
| Projectiles.StepIgnoresIndex | packages/simulation/src/projectile.ts:183-222 | a step is the same with and without a faithful index |
| TickLaws.StepIsExact | packages/simulation/src/projectile.ts:232-318 | one step case by case: stopped by geometry, else one hit on the nearest entity met with the whole way counted, else ended by age, else flown on unchanged but for place, age and way; with the events of each |
| TickLaws.RunFliesTheProjectile | packages/simulation/src/combat.ts:349-363 | a projectile alone in flight, flown by the ticks of a run, does to health, reports and impulses exactly what stepping it out does, and is gone within its lifetime |
| TickLaws.TickStepsEach | packages/simulation/src/combat.ts:349-377 | a tick steps each projectile that was in flight once, by id, after all intents and never one just spawned; health, survivors, events and impulses are those of the steps in order |
| Projectiles.SteppedFlightAgrees | packages/simulation/src/projectile.ts:74-91 | for every validated delivery, and for any speed without falloff, stepping deals the same at most one outcome, leaves the same health and gives impulses alike in target and strength as the whole flight |
| Projectiles.SteppedFlightIsWholeFlight | packages/simulation/src/delivery.ts:508-558 | for every delivery the two agree exactly when, below one tick of life, the first tick is blocked or nobody is near it, and otherwise counting distance by the speed or by its size does the same to the entity struck |
| FlightExamples.ShortLifeDiffers | packages/simulation/src/delivery.ts:515-520 | a concrete delivery with no tick to live that strikes when stepped and not as a whole |
| FlightExamples.NegativeSpeedDiffers | packages/simulation/src/delivery.ts:551-557 | a concrete backward flight with falloff that deals 8 as a whole and 5 when stepped |
| Projectiles.SteppingFollowsPlan | packages/simulation/src/delivery.ts:508-558 | from any point of a flight, stepping on agrees with the rest of the whole-flight plan |
| Combat.TickIgnoresIndex | packages/simulation/src/combat.ts:250-377 | over any faithful index a tick returns the same results, impulses, state, health and generator position as without one |
| FireOrder.TickForgetsIntentOrder | packages/simulation/src/combat.ts:184-192 | a tick is the same for every arrival order of its intents when no two different ones fire the same weapon on the table |
| FireOrder.FiringOrderIsForgottenIff | packages/simulation/src/combat.ts:184-192 | intents are processed in the same order however they arrive if and only if no two different ones fire the same weapon |
| FireOrder.IntentOrderCanMatter | packages/simulation/src/combat.ts:274-312 | two concrete intents for one launcher after which the tick differs with their arrival order, in every world |
| FireOrder.OnlyArmedIntentsMatter | packages/simulation/src/combat.ts:274-279 | intents that name no weapon on the table change nothing |
| ShotLaws.IntentsAreOrdered | packages/simulation/src/combat.ts:184-192 | intents are resolved by entity, then by weapon, those for one weapon in their order of arrival, each once |
| ShotLaws.ShotLands | packages/simulation/src/combat.ts:282-346 | a ready weapon of immediate delivery lands, from the intent's origin or the shooter's place and without the shooter, a plan its family promises: health, impulses, draws and results are exactly what landing it gives |
| ShotLaws.ShotLaunches | packages/simulation/src/combat.ts:293-312 | a ready projectile weapon spawns one projectile under the next id from there, with its delivery's own numbers; flown out it does what a plan its delivery promises does at once |
| ShotLaws.RefusalIsHarmless | packages/simulation/src/combat.ts:275-286 | a weapon that is missing or not ready changes no health, flight or draw and pushes nobody; only its refusal is reported |
| ShotLaws.StatusesApply | packages/simulation/src/combat.ts:336-346 | each declared effect is applied once, in order, to the target of each outcome that took health, and to nobody else |
| ShotLaws.ReloadsAreExact | packages/simulation/src/combat.ts:260-268 | the completed reloads reported by a tick are exactly those that one tick ends, in the order of the weapons, with their rounds |
| TickLaws.NearestIsWounded | packages/simulation/src/combat.ts:250-377 | from trigger to wound: in a tick in which a ready hitscan or beam weapon fires, the nearest entity met in sight that may be hurt loses the lesser of the damage at its distance and what it had, and nobody else is hurt |
| WeaponRuns.HeldIsListed | packages/simulation/src/combat.ts:254-257 | a tick finds a weapon under a key exactly when the state lists one, and then a listed one |
| WeaponRuns.WeaponsAreOrdered | packages/simulation/src/combat.ts:254-257 | weapons are gone through and handed on strictly by entity and then by weapon |
| WeaponRuns.TickDrivesWeapons | packages/simulation/src/combat.ts:260-286 | a tick runs each weapon's timers down by one tick and then pulls its trigger once for each intent that names it, with the answers those intents report; no weapon comes, goes or is exchanged |
| WeaponRuns.RunSpendsRounds | packages/simulation/src/combat.ts:281-283 | over any run the rounds of a weapon, chambered or being loaded, fall by exactly the shots its intents report |
| WeaponRuns.ShotsAreApart | packages/simulation/src/combat.ts:260-286 | over any run two ticks with shots of one weapon are at least its cooldown apart, and two shots in one tick need a weapon without cooldown |
| WeaponRuns.IdleWeaponsOnlyCool | packages/simulation/src/combat.ts:260-268 | over any run a weapon that no intent names only runs down its timers, one tick for each tick |
| WeaponRuns.FirstPullIsAnswered | packages/simulation/src/combat.ts:260-286 | after any idle time the first pull fires exactly when reload and cooldown have run out by then and a round is chambered |
| CombatRuns.RunIgnoresIndex | packages/simulation/src/combat.ts:250-377 | the same for whole runs in which scene, policy and entropy may change between ticks |
| CombatRuns.ReferenceIndexIsInvisible | packages/simulation/src/world.ts:38-46 | a tick over the reference world is the same with its grid and without |
| CombatRuns.RunBalances | packages/simulation/src/combat.ts:250-377 | over any run every entity loses exactly the reported amounts, pools stay in bounds, and a defeat is reported once for each entity that goes down and never otherwise |
| Orchestrator.RunCombatTick | packages/simulation/src/combat.ts:250-377 | the loops over the weapon map, intents and projectiles compute the tick function, and the clock advances by one |
| Orchestrator.CoolWeapons | packages/simulation/src/combat.ts:260-268 | the timer loop rewrites every weapon once and reports completed reloads in order |
| Orchestrator.ReportVolley | packages/simulation/src/combat.ts:327-346 | every outcome is reported first, then each declared effect once per outcome that dealt damage |
| ProjectileLife.RunTracks | packages/simulation/src/combat.ts:270-377 | over any run projectiles stay strictly ascending by id below the next id, each id is spawned at most once, and each is in flight or reported ended, exactly once and never both |
| ProjectileLife.SpawnEndsInTime | packages/simulation/src/projectile.ts:284-317 | every reported spawn is reported ended exactly once, and is gone, within max(1, ttlTicks) ticks after its own, with the ttlTicks of the weapon named by the very intent that reported it |
| ProjectileLife.InitialIsOrdered | packages/simulation/src/combat.ts:76-84 | the initial state has the given weapons and no projectile in flight, and meets the ordering invariant |
| ShooterSafety.ShotSparesWielder | packages/simulation/src/combat.ts:203-225 | no fire intent changes the health of its own entity or names it in a damage outcome |
| ShooterSafety.FlightSparesSource | packages/simulation/src/combat.ts:349-363 | no projectile hurts the entity that fired it |
| ShooterSafety.NobodyHurtsThemselves | packages/simulation/src/combat.ts:250-377 | over any run with any shooters, every reported damage outcome was caused by a shot or projectile of somebody other than its target |
| ShooterSafety.LoneShooterIsUnhurt | packages/simulation/src/combat.ts:250-377 | in a run where only one entity fires, it never loses health |
| Weapon.AdvanceComposes | packages/simulation/src/weapon.ts:208-263 | advancing a + b ticks is advancing a and then b, with the reload completion reported exactly once |
| Weapon.FiresWhenReady | packages/simulation/src/weapon.ts:150-187 | a weapon fires exactly when nothing is loading, nothing cools and a round is chambered, for its own damage, one round and its cooldown; each refusal has its exact reason and changes nothing |
| Weapon.FiresAfter | packages/simulation/src/weapon.ts:208-263 | what a trigger pull after any wait answers, told from the state before it: timers run down tick by tick and a reload's rounds arrive when it ends and not before |
| Weapon.ReloadTakesTheMost | packages/simulation/src/weapon.ts:305-354 | a reload starts exactly when none is active, the magazine is not full and a whole round is in reserve, and takes the most rounds that are in reserve and fit |
| Ammo.StackAmountIsSet | packages/simulation/src/ammo.ts:35-44 | setting a stack keeps the reserve canonical and changes that kind alone |
| Ammo.CanonicalIsUnique | packages/simulation/src/ammo.ts:21-44 | two canonical reserves that hold the same amounts are the same list |
| Ammo.ConsumeIsExact | packages/simulation/src/ammo.ts:67-82 | consuming takes exactly the lesser of what is held and what is asked, never less than nothing |
| Ammo.AddIsExact | packages/simulation/src/ammo.ts:47-56 | adding rounds adds exactly the whole ones of that kind |
| Ammo.AddThenConsume | packages/simulation/src/ammo.ts:47-82 | adding rounds and consuming them again restores the reserve exactly |
| Ammo.AmmoIsConserved | packages/simulation/src/weapon.ts:150-354 | from any sound state no fire, tick or reload step creates or loses a round, overfills the magazine counting rounds in flight, or fires sooner than a cooldown apart |
| Ammo.FullMagazineIsAccountedFor | packages/simulation/src/weapon.ts:97-103 | from a full magazine, reserve, magazine, rounds in flight and shots always add up to the reserve and one magazine, and n shots take at least n - 1 cooldowns |
| Ammo.MagazineIsEmptied | packages/simulation/src/weapon.ts:150-187 | from a full magazine, triggers a cooldown apart fire exactly as many shots as it holds; the next reports it empty, and any before fires |
| Ammo.ReloadRefills | packages/simulation/src/weapon.ts:305-354 | a reload that may start fills the magazine as far as the reserve goes, after its reload time and not before, paid out of the reserve |
| Rng.SeededRng.NextInt | packages/simulation/src/rng.ts:85-102 | the result comes from the first accepted draw and lies below the span; non-positive spans draw nothing |
| Rng.NextIntIsUnbiased | packages/simulation/src/rng.ts:93-101 | every result has the same number of accepted 32-bit draws, and more than half of all draws are accepted |
| Rng.AcceptsSomethingIff | packages/simulation/src/rng.ts:93-101 | some draw is accepted exactly when the span is at most 2^32 |
| Rng.OversizedSpanRejectsAll | packages/simulation/src/rng.ts:96-100 | at a span of 2^32 + 1 the bound is zero and every 32-bit draw is rejected |
| Loot.MakeRuntimeLootTable | packages/simulation/src/loot.ts:51-81 | a table is made exactly when every entry is structural, otherwise the first bad entry and its fault are reported |
| Loot.ScanEntries | packages/simulation/src/loot.ts:101-116 | the scan returns the entry whose stretch holds the target, and the last rollable entry past the end |
| Loot.RollLootTable | packages/simulation/src/loot.ts:90-116 | one draw picks the entry whose stretch holds it; a table without weight picks nothing and draws nothing |
| Loot.StretchesTile | packages/simulation/src/loot.ts:90-116 | the stretches tile [0, total): one winner for every target, each as long as its weight, none for an entry without weight |
| Loot.DrawsAreProportional | packages/simulation/src/loot.ts:90-116 | among the 2^32 draws an entry wins those in its share of them |
| Loot.ResolvePickupCandidates | packages/simulation/src/loot.ts:163-178 | the loop and sort give the ranking of the pickups in reach |
| Loot.RankingIsCanonical | packages/simulation/src/loot.ts:163-178 | the ranking holds exactly the pickups in reach, by distance then id, and forgets the order in which they were offered |
| Loot.WithinReachIff | packages/simulation/src/loot.ts:144-151 | a pickup is in reach of zero, of the query radius or of its own radius, by its own distance if it brings one |
| Inventory.GrantConserves | packages/simulation/src/inventory.ts:218-246 | a grant accounts for every item under both overflow policies and at zero capacity |
| Inventory.GrantIsExact | packages/simulation/src/inventory.ts:218-246 | a grant is refused exactly when nothing is free and nothing may be evicted, and otherwise puts the item last, after dropping the oldest when full, with the results of each |
| Inventory.DropConserves | packages/simulation/src/inventory.ts:252-269 | a drop accounts for every item, and keeps the capacity and its bound |
| Inventory.DropIsExact | packages/simulation/src/inventory.ts:252-269 | a held item is dropped: its first copy leaves, the others keep their order, and it lands where the drop says; one not held is refused and nothing changes |
| Inventory.ConsumeConserves | packages/simulation/src/inventory.ts:275-286 | a consumption accounts for every item, and keeps the capacity and its bound |
| Inventory.ConsumptionIsExact | packages/simulation/src/inventory.ts:275-286 | a held item is consumed: its first copy leaves, the others keep their order; one not held is refused and nothing changes |
| Inventory.DropOldestKeepsNewest | packages/simulation/src/inventory.ts:218-246 | granting a list under drop-oldest leaves exactly the newest items that fit, in order |
| InventoryOps.TagOrder | packages/simulation/src/inventory-ops.ts:202-204 | the rank used for tags is the order of their names |
| InventoryOps.ResolveInventoryCommands | packages/simulation/src/inventory-ops.ts:312-329 | the loop over the sorted batch computes the fold that skips unknown actors and stale sequences |
| CommandLaws.CommandIsLawful | packages/simulation/src/inventory-ops.ts:229-296 | what each kind of command does in any state of its actor, and exactly when and why it is refused: not held, no room, slot taken, slot empty |
| CommandLaws.BatchIsLawful | packages/simulation/src/inventory-ops.ts:312-329 | in any batch an actor goes through a chain of lawful commands, exactly those of its own that are consumed, in order, each consuming its sequence even when refused; their results are in the outcome |
| CommandLaws.BatchIsOrdered | packages/simulation/src/inventory-ops.ts:195-208 | a batch is gone through by actor, sequence, tag name and payload text, each command once |
| InventoryOrder.OnlyLeadersMatter | packages/simulation/src/inventory-ops.ts:317-326 | a batch resolves as its leading commands alone do: live, and not strictly preceded by a rival of the same sequence |
| InventoryOrder.TieMeansCollision | packages/simulation/src/inventory-ops.ts:185-208 | two commands compare equal exactly when they are equal or are equips or swaps whose joined ids collide |
| InventoryOrder.PlainIdsDoNotCollide | packages/simulation/src/inventory-ops.ts:185-189 | ids without the separator never collide |
| InventoryOrder.ArrivalOrderIsForgottenIff | packages/simulation/src/inventory-ops.ts:298-329 | every permutation of a batch gives the same actors and results exactly when no leading command collides with another |
| InventoryOrder.OrderCanMatter | packages/simulation/src/inventory-ops.ts:185-208 | a concrete batch of two equips whose outcome depends on arrival order, under any rendering of numbers |
| InventoryOrder.ReplayIsSilent | packages/simulation/src/inventory-ops.ts:312-329 | resolving again any commands of a resolved batch changes no actor and emits nothing |
| InventoryOrder.CutsAreInvisible | packages/simulation/src/inventory-ops.ts:312-329 | cutting a stream at any per-actor watermark gives the same actors and the same multiset of results |
| InventoryLedger.EquippingIsExact | packages/simulation/src/inventory-ops.ts:60-69 | equipping keeps one item per slot in strict slot order, changes that slot alone, and accounts for the item displaced |
| InventoryLedger.CommandBalances | packages/simulation/src/inventory-ops.ts:229-296 | every command keeps capacity and equipment well formed and accounts for every item held or worn |
| InventoryLedger.ActorsAreIndependent | packages/simulation/src/inventory-ops.ts:312-329 | an actor ends as if its own commands were the whole batch, and their results are part of the outcome |
| InventoryLedger.ItemsAreConserved | packages/simulation/src/inventory-ops.ts:312-329 | over any batch held plus worn plus dropped plus consumed equals what was held and worn before plus what was granted, item by item, within capacity |
| InventoryLedger.EveryDropIsSpawned | packages/simulation/src/inventory.ts:236-268 | when every pickup and drop says where, the world receives exactly the items that fell |
| InventoryLedger.PickupsKeepNewest | packages/simulation/src/inventory-ops.ts:312-329 | in any batch in which an actor's own commands are pickups, drop-oldest leaves it exactly the newest of its items and those it consumed, in order, whatever is stale, repeated or meant for others |
| InventoryLedger.OwnConsumption | packages/simulation/src/inventory-ops.ts:319-323 | of an actor's commands exactly one is consumed for each sequence above its watermark, in rising order |
| InventoryLedger.FreshPickupsKeepNewest | packages/simulation/src/inventory-ops.ts:298-329 | when its pickups are fresh and have sequences of their own, their arrival order does not matter |
| InventoryLedger.SwapBackRestoresIff | packages/simulation/src/inventory-ops.ts:248-271 | swapping in and back restores the equipment always, and the inventory exactly when it holds no earlier copy of the item displaced |
| InventoryLedger.SwapBackCanReorder | packages/simulation/src/inventory-ops.ts:248-271 | a concrete bag that swapping in and back leaves in another order |
| Defeat.DropOnDefeat | packages/simulation/src/inventory-ops.ts:345-370 | the spill reports every slot in order, then the copies of one rolled entry, and empties the inventory |
| Defeat.SpillIsComplete | packages/simulation/src/inventory-ops.ts:345-355 | every held item falls once and lands once, and nothing is left |
| Defeat.SpillIsInOrder | packages/simulation/src/inventory-ops.ts:350-353 | the spill drops and lands the slots in order |
| Defeat.CopiesAreExact | packages/simulation/src/inventory-ops.ts:355-362 | rolled loot lands as many times as its quantity says |
| SpawnLayout.DistanceIsSquared | packages/plugin-battle-royale/src/spawn-layout.ts:14-18 | the measure that is compared is the square of the distance in the plane |
| SpawnLayout.MinDistanceSqToSelected | packages/plugin-battle-royale/src/spawn-layout.ts:20-29 | the loop returns the squared gap to the nearest chosen point |
| SpawnLayout.SpreadOrderSpawnPoints | packages/plugin-battle-royale/src/spawn-layout.ts:31-61 | the order is a permutation that starts with the least point and takes a farthest point at every step, ties by the comparator |
| SpawnLayout.InsertionDistancesDescend | packages/plugin-battle-royale/src/spawn-layout.ts:42-58 | insertion gaps never increase |
| SpawnLayout.SpreadIsLastInsertion | packages/plugin-battle-royale/src/spawn-layout.ts:42-58 | the least pairwise squared distance of a prefix is the gap of its last point |
| SpawnLayout.PrefixIsTwoApproximation | packages/plugin-battle-royale/src/spawn-layout.ts:31-61 | any k of the points hold two whose squared distance is at most four times the spread of the length-k prefix |
| SpawnLayout.FarthestFirstIsUnique | packages/plugin-battle-royale/src/spawn-layout.ts:31-61 | with a comparator that separates points, the first point and the farthest-first rule determine the whole order |
| SpawnLayout.FindClosestSpawnPair | packages/plugin-battle-royale/src/spawn-layout.ts:63-79 | the pair returned is at least as close as every other pair, and absent exactly below two points |
| SpawnLayout.ClosestIsSpread | packages/plugin-battle-royale/src/spawn-layout.ts:63-79 | the squared distance of the pair is the spread of the points |
| TeamTopology.ResolveTeamTopology | packages/plugin-battle-royale/src/team-topology.ts:76-147 | the counting code returns the canonical topology: derived or authored, with exactly the issues of the policy |
| TeamTopology.CheckPolicy | packages/plugin-battle-royale/src/team-topology.ts:113-145 | from counts and sizes the code reports a wrong count, some team over capacity, and some two teams more than one apart, each exactly when it holds |
| TeamTopology.RoundRobinSize | packages/plugin-battle-royale/src/team-topology.ts:60-70 | each round-robin team has the quotient of players, one more for the first few |
| TeamTopology.ExpectedCountIsLeast | packages/plugin-battle-royale/src/team-topology.ts:30-31 | the number of teams is the least, from two up, that seats everybody two or four to a team, and never more than there are players |
| TeamTopology.SoloTeamsAreApart | packages/plugin-battle-royale/src/team-topology.ts:64-66 | in solo mode no two players share a team |
| TeamTopology.LabelIsTrimmed | packages/plugin-battle-royale/src/team-topology.ts:33-38 | a label counts by what is left without the white space around it, unless that is empty or solo |
| TeamTopology.TopologyIsExact | packages/plugin-battle-royale/src/team-topology.ts:76-147 | authored teams are used exactly in a team mode with two players or more who are all labelled, and are then the trimmed labels; else derived ones with exactly the complaint that applies |
| TeamTopology.SpawnOrderIsByRow | packages/plugin-battle-royale/src/team-topology.ts:40-46 | spawns are ordered by row, then column, then label |
| TeamTopology.DerivedTeamsAreAccepted | packages/plugin-battle-royale/src/team-topology.ts:60-146 | derived duo and squad teams fed back as authored labels are kept as they are without a single issue |
| TeamTopology.ResolvingTwice | packages/plugin-battle-royale/src/team-topology.ts:76-147 | writing the resolved ids back and resolving again changes no id, whatever was authored |
| TeamTopology.SelectSpawnTeamSlots | packages/plugin-battle-royale/src/team-topology.ts:49-58 | the selection is all points in row order or a prefix of a farthest-first order of them that starts with the first point in row order |
| ReferenceIndex.BehaviorReferenceIndex.LoadOptions | apps/desktop/src/main/behavior-reference-index.ts:54-81 | a load answers from the settled entry, joins the request in flight, or starts its own |
| ReferenceIndex.BehaviorReferenceIndex.OnResolved | apps/desktop/src/main/behavior-reference-index.ts:66-70 | a resolved loader hands on its options sorted by label, then id |
| ReferenceIndex.BehaviorReferenceIndex.OnFailed | apps/desktop/src/main/behavior-reference-index.ts:65-78 | a failed loader settles nothing and goes straight to its final step |
| ReferenceIndex.BehaviorReferenceIndex.OnOrdered | apps/desktop/src/main/behavior-reference-index.ts:71-75 | a completing loader settles its entry exactly if the generation is still its own |
| ReferenceIndex.BehaviorReferenceIndex.OnFinally | apps/desktop/src/main/behavior-reference-index.ts:76-78 | a finished request leaves the table only if it is the one recorded |
| ReferenceIndex.BehaviorReferenceIndex.Invalidate | apps/desktop/src/main/behavior-reference-index.ts:119-132 | the loop drops and bumps exactly the matching keys that have something settled or in flight |
| ReferenceIndex.RunsAreSound | apps/desktop/src/main/behavior-reference-index.ts:47-133 | after every interleaving of loads, callbacks and invalidations the invariant of the index holds |
| ReferenceIndex.ServedIsFresh | apps/desktop/src/main/behavior-reference-index.ts:54-81 | whatever a load may be served was or will be produced by a loader begun after the last invalidation of its key |
| ReferenceIndex.GuardMeansFresh | apps/desktop/src/main/behavior-reference-index.ts:64-72 | for a loader still at work the generation test passes exactly when no matching invalidation came since it began |
| ReferenceIndex.OneCurrentLoader | apps/desktop/src/main/behavior-reference-index.ts:54-81 | at most one unfinished loader of a key carries the current generation, and it is the one recorded in flight |
| ReferenceIndex.SourceWorkIsShared | apps/desktop/src/main/behavior-reference-index.ts:43-46 | between invalidations a second loader of a key starts only after the first one failed |
| ReferenceIndex.InvalidationIsComplete | apps/desktop/src/main/behavior-reference-index.ts:119-132 | right after an invalidation every matching key starts its own loader, and no other key is touched |
| ReferenceIndex.ProjectScopeReaches | apps/desktop/src/main/behavior-reference-index.ts:120-124 | a project scope matches the keys of that project and of those whose id continues it with a colon, and no others |
| ReferenceIndex.ProjectScopeIsExact | apps/desktop/src/main/behavior-reference-index.ts:120-124 | between ids of one length, as all project ids are, a project scope matches exactly the keys of its own project |
| ReferenceIndex.KeysAreDistinct | apps/desktop/src/main/behavior-reference-index.ts:28 | a key names its project and kind, and a scope with a kind matches exactly that key, whatever the ids |

## Left out

- Rounding, NaN and infinity: coordinates, damage and weights are exact reals, so the path that
  keeps entities with non-finite positions unbucketed is not modelled.
- The lane arithmetic of both generators, seeding and cloning: the draws are an arbitrary stream.
- Trigonometry: `cos`, `sin` and `acos` have no laws, so no claim depends on what an angle is.
- Broadphase.UniformGrid.QueryAabb: cells are keyed by a pair of integers instead of their text.
- Projectiles.SteppedFlightAgrees: compares outcomes, health and the impulses with their targets and their strength, but not the direction of the impulse, which the two resolvers measure from different points; the same holds for Projectiles.SteppedFlightIsWholeFlight.
- WeaponRuns.RunSpendsRounds: reloads that a caller begins between the ticks of a run are not part of the run; `Ammo.AmmoIsConserved` and `Ammo.ReloadRefills` cover them for one weapon.
- Orchestrator.RunCombatTick: the clock is only a counter of ticks; what else a clock offers is not modelled.
- InventoryOrder.ArrivalOrderIsForgottenIff: assumes that different coordinates of the batch are rendered as different texts without comma or bar, as distinct finite numbers are; negative zero is not modelled.
- ReferenceIndex.BehaviorReferenceIndex.LoadOptions: a loader that calls back into the index before it returns is not modelled, nor are the observer callbacks.
- Pagination, `query` and `resolve` of the source index: lookups over a served list.
- The order of entries in the maps that the inventory resolver returns: the maps are compared by content.
- Grants (`grants.ts`), catalog falloff conversion (`falloff.ts`) and the field checks of deliveries and weapons: each is a field-by-field translation that no property here depends on; status effects are reported by a tick and applied elsewhere.
- The text of topology issues and of error messages: issues and errors are codes.
- Line of sight for vision and the gap between boxes: not used by the modelled resolvers.
- HTTP routing, file access, user interface, schema decoding and message encoding.
