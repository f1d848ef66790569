/**
 What one trigger pull does to the world (packages/simulation/src/combat.ts), and what a tick
 reports: told from the weapon, the scene and the policy rather than from the loops.
 */
module ShotLaws {
  import opened Wrappers
  import opened Sorting
  import opened Text
  import opened Geometry
  import opened Damage
  import opened World
  import opened Targeting
  import opened Delivery
  import opened DeliveryLaws
  import opened PlanLaws
  import opened Impact
  import opened Projectiles
  import opened Weapon
  import opened Combat
  import opened CombatRuns
  import opened FireOrder
  import Rng

  // ----- what is reported -----

  function Joined(blocks: seq<seq<CombatResult>>): seq<CombatResult>
  {
    if blocks == [] then [] else blocks[0] + Joined(blocks[1..])
  }

  function DealsDamage(): DamageOutcome -> bool
  {
    (o: DamageOutcome) => !o.DamageIgnored?
  }

  /** One application of each effect on one target, in the order of the effects. */
  ghost predicate AppliesAll(block: seq<CombatResult>, target: EntityId, effects: seq<StatusEffectId>, source: EntityId)
  {
    |block| == |effects| && forall j :: 0 <= j < |block| ==> block[j] == StatusApplied(target, effects[j], source)
  }

  /** One block of effects for each outcome that took health, in order, and nothing else. */
  ghost predicate AppliesEach(statuses: seq<CombatResult>, outcomes: seq<DamageOutcome>, effects: seq<StatusEffectId>,
                              source: EntityId)
  {
    var hurt := Filter(outcomes, DealsDamage());
    exists blocks: seq<seq<CombatResult>> ::
      && statuses == Joined(blocks) && |blocks| == |hurt|
      && forall i :: 0 <= i < |blocks| ==> AppliesAll(blocks[i], hurt[i].target, effects, source)
  }

  /** The answer to the trigger pull, then every outcome, then the effects. */
  ghost predicate Announces(results: seq<CombatResult>, answer: FireOutcome, outcomes: seq<DamageOutcome>,
                            effects: seq<StatusEffectId>, source: EntityId)
  {
    exists damages: seq<CombatResult>, statuses ::
      && results == [Fired(answer)] + (damages + statuses) && |damages| == |outcomes|
      && (forall i :: 0 <= i < |outcomes| ==> damages[i] == Damaged(outcomes[i]))
      && AppliesEach(statuses, outcomes, effects, source)
  }

  lemma {:induction false} EffectsApply(target: EntityId, effects: seq<StatusEffectId>, source: EntityId)
    ensures AppliesAll(StatusesOn(target, effects, source), target, effects, source)
  {
    if effects != [] {
      EffectsApply(target, effects[1..], source);
    }
  }

  lemma MoreBlocks(rest: seq<CombatResult>, o: DamageOutcome, outcomes: seq<DamageOutcome>,
                   effects: seq<StatusEffectId>, source: EntityId)
    requires AppliesEach(rest, outcomes, effects, source)
    ensures AppliesEach((if o.DamageIgnored? then [] else StatusesOn(o.target, effects, source)) + rest,
                        [o] + outcomes, effects, source)
  {
    var hurt, block := Filter(outcomes, DealsDamage()), StatusesOn(o.target, effects, source);
    var blocks: seq<seq<CombatResult>> :|
      && rest == Joined(blocks) && |blocks| == |hurt|
      && forall i :: 0 <= i < |blocks| ==> AppliesAll(blocks[i], hurt[i].target, effects, source);
    assert ([o] + outcomes)[1..] == outcomes;
    if o.DamageIgnored? {
      assert [] + rest == rest;
    } else {
      EffectsApply(o.target, effects, source);
      assert ([block] + blocks)[1..] == blocks;
      assert Joined([block] + blocks) == block + rest;
    }
  }

  lemma {:induction false} StatusesApply(outcomes: seq<DamageOutcome>, effects: seq<StatusEffectId>, source: EntityId)
    ensures AppliesEach(Statuses(outcomes, effects, source), outcomes, effects, source)
  {
    if outcomes == [] {
      var blocks: seq<seq<CombatResult>> := [];
      assert Joined(blocks) == [];
    } else {
      StatusesApply(outcomes[1..], effects, source);
      MoreBlocks(Statuses(outcomes[1..], effects, source), outcomes[0], outcomes[1..], effects, source);
      assert [outcomes[0]] + outcomes[1..] == outcomes;
    }
  }

  lemma {:induction false} DamagesAre(outcomes: seq<DamageOutcome>)
    ensures |DamageResults(outcomes)| == |outcomes|
    ensures forall i :: 0 <= i < |outcomes| ==> DamageResults(outcomes)[i] == Damaged(outcomes[i])
  {
    if outcomes != [] {
      DamagesAre(outcomes[1..]);
    }
  }

  // ----- an immediate shot -----

  /** Where a shot starts: where the intent says, else where the shooter stands, else at zero. */
  ghost predicate StartsAt(scene: Scene, intent: FireIntent, at: Vec2)
  {
    && (intent.origin.Some? ==> at == intent.origin.value)
    && (intent.origin.None? && intent.entity in scene.positions ==> at == scene.positions[intent.entity])
    && (intent.origin.None? && intent.entity !in scene.positions ==> at == Vec2(0.0, 0.0))
  }

  /** The shooter and its team, to whom the policy is put and damage is attributed. */
  function Shooter(scene: Scene, entity: EntityId): DamageSource
  {
    DamageSource(Some(entity), if entity in scene.teams then Some(scene.teams[entity]) else None)
  }

  /** The weapon an intent pulls the trigger of is ready. */
  predicate ReadyFor(t: Tally, intent: FireIntent)
  {
    var found := Lookup(t.table, intent.entity, intent.weapon);
    found.Some? && Ready(found.value.state)
  }

  function WeaponOf(t: Tally, intent: FireIntent): EquippedWeapon
    requires ReadyFor(t, intent)
  {
    Lookup(t.table, intent.entity, intent.weapon).value
  }

  /** What a weapon that shoots answers. */
  function ShotAnswer(w: EquippedWeapon): FireOutcome
  {
    WeaponFired(w.definition.id, w.definition.damage, w.state.ammoInMagazine - 1)
  }

  /**
   A ready weapon of immediate delivery lands, from where the shot starts and with the shooter
   hidden, exactly a plan that its family promises; health, impulses and results are what landing it
   gives, the pellets alone draw, and nothing flies.
   */
  lemma ShotLands(env: Env, t: Tally, intent: FireIntent)
      returns (at: Vec2, plan: seq<PlannedHit>, r: Resolution, news: seq<CombatResult>)
    requires Lawful(env.m) && Faithful(env.scene)
    requires ReadyFor(t, intent) && !WeaponOf(t, intent).delivery.ProjectileDelivery?
    ensures StartsAt(env.scene, intent, at)
    ensures PlanLaw(env.m, Excluding(env.scene, intent.entity), WeaponOf(t, intent).delivery,
                    Shot(at, intent.aim, intent.heldTicks), env.draws, t.cursor, plan)
    ensures r == ApplyHits(Impulse(env.m), t.vitals, env.scene.teams, Shooter(env.scene, intent.entity), env.policy,
                           plan)
    ensures Announces(news, ShotAnswer(WeaponOf(t, intent)), r.outcomes, intent.appliesStatus, intent.entity)
    ensures FireOne(env, t, intent) ==
            t.(table := FireOne(env, t, intent).table, vitals := r.vitals, knockbacks := t.knockbacks + r.knockbacks,
               cursor := t.cursor + FloatsDrawn(WeaponOf(t, intent).delivery), results := t.results + news)
  {
    var w := WeaponOf(t, intent);
    at := OriginOf(env.scene, intent);
    var view, shot := Excluding(env.scene, intent.entity), Shot(at, intent.aim, intent.heldTicks);
    plan := Plan(env.m, view, w.delivery, shot, env.draws, t.cursor);
    r := Volley(env, t, intent, w.delivery);
    news := [Fired(ShotAnswer(w))]
            + (DamageResults(r.outcomes) + Statuses(r.outcomes, intent.appliesStatus, intent.entity));
    ExcludingIsFaithful(env.scene, intent.entity);
    PlanIsLawful(env.m, view, w.delivery, shot, env.draws, t.cursor);
    ShotIsAnnounced(ShotAnswer(w), r.outcomes, intent.appliesStatus, intent.entity);
    ShotIsTallied(env, t, intent);
  }

  lemma ShotIsTallied(env: Env, t: Tally, intent: FireIntent)
    requires ReadyFor(t, intent) && !WeaponOf(t, intent).delivery.ProjectileDelivery?
    ensures var w := WeaponOf(t, intent);
            var r := Volley(env, t, intent, w.delivery);
            FireOne(env, t, intent) ==
            t.(table := FireOne(env, t, intent).table, vitals := r.vitals, knockbacks := t.knockbacks + r.knockbacks,
               cursor := t.cursor + FloatsDrawn(w.delivery),
               results := t.results + ([Fired(ShotAnswer(w))]
                                       + (DamageResults(r.outcomes)
                                          + Statuses(r.outcomes, intent.appliesStatus, intent.entity))))
  {
    FireOneAdds(env, t, intent);
  }

  lemma ShotIsAnnounced(answer: FireOutcome, outcomes: seq<DamageOutcome>, effects: seq<StatusEffectId>,
                        source: EntityId)
    ensures Announces([Fired(answer)] + (DamageResults(outcomes) + Statuses(outcomes, effects, source)), answer,
                      outcomes, effects, source)
  {
    DamagesAre(outcomes);
    StatusesApply(outcomes, effects, source);
  }

  /** A weapon that is not ready, or not there, changes neither health nor flights nor entropy, and pushes nobody. */
  lemma RefusalIsHarmless(env: Env, t: Tally, intent: FireIntent)
    requires !ReadyFor(t, intent)
    ensures var next := FireOne(env, t, intent);
            && next.vitals == t.vitals && next.knockbacks == t.knockbacks && next.cursor == t.cursor
            && next.spawned == t.spawned && next.nextId == t.nextId
            && t.results <= next.results && |next.results| == |t.results| + if Armed(t.table, intent) then 1 else 0
  {
  }

  // ----- a launch -----

  /** What flies is the delivery: it starts where the shot starts and keeps what the delivery says. */
  ghost predicate FliesAs(m: Maths, p: Projectile, d: DamageDelivery, at: Vec2, aim: Vec2)
    requires d.ProjectileDelivery?
  {
    && p.position == at && p.velocity == ScaleVec(NormalizeVec(m, aim), d.speed) && p.ttlRemaining == d.ttlTicks
    && p.damage == d.damage && p.radius == d.radius && p.falloff == d.falloff && p.knockback == d.knockback
    && p.travelled == 0.0
  }

  /**
   A ready projectile weapon spawns one projectile under the next free id, reports the shot and the
   spawn, and hurts nobody yet. Flown out over the scene without its shooter it does what a plan that
   the delivery promises does at once.
   */
  lemma ShotLaunches(env: Env, t: Tally, intent: FireIntent, vitals: Vitals)
      returns (at: Vec2, p: Projectile, plan: seq<PlannedHit>)
    requires Lawful(env.m) && Faithful(env.scene)
    requires ReadyFor(t, intent) && WeaponOf(t, intent).delivery.ProjectileDelivery?
    ensures var d, next := WeaponOf(t, intent).delivery, FireOne(env, t, intent);
            && StartsAt(env.scene, intent, at) && FliesAs(env.m, p, d, at, intent.aim)
            && p.id == t.nextId && ProjectileSource(p) == Shooter(env.scene, intent.entity)
            && next.spawned == t.spawned + [p] && next.nextId == t.nextId + 1
            && next.vitals == t.vitals && next.knockbacks == t.knockbacks && next.cursor == t.cursor
            && next.results == t.results + [Fired(ShotAnswer(WeaponOf(t, intent))),
                                            ProjectileSpawned(t.nextId, intent.entity, at, p.velocity)]
    ensures PlanLaw(env.m, Excluding(env.scene, intent.entity), WeaponOf(t, intent).delivery,
                    Shot(at, intent.aim, intent.heldTicks), env.draws, t.cursor, plan)
    ensures var d := WeaponOf(t, intent).delivery;
            d.ttlTicks >= 1 && (d.speed >= 0.0 || d.falloff.NoFalloff?) ==>
              Agree(Stepping(env.m, Excluding(env.scene, intent.entity), env.policy, vitals, p),
                    ApplyHits(Impulse(env.m), vitals, env.scene.teams, Shooter(env.scene, intent.entity), env.policy,
                              plan))
  {
    var w := WeaponOf(t, intent);
    at, p := OriginOf(env.scene, intent), Launch(env, t, intent, w.delivery);
    var view, shot := Excluding(env.scene, intent.entity), Shot(at, intent.aim, intent.heldTicks);
    plan := Plan(env.m, view, w.delivery, shot, env.draws, t.cursor);
    ExcludingIsFaithful(env.scene, intent.entity);
    PlanIsLawful(env.m, view, w.delivery, shot, env.draws, t.cursor);
    LaunchIsReported(env, t, intent);
    if w.delivery.ttlTicks >= 1 && (w.delivery.speed >= 0.0 || w.delivery.falloff.NoFalloff?) {
      SteppedFlightAgrees(env.m, view, env.policy, vitals, t.nextId, intent.entity,
                          TeamOf(env.scene.teams, intent.entity), shot, w.delivery, env.draws, t.cursor);
    }
  }

  lemma LaunchIsReported(env: Env, t: Tally, intent: FireIntent)
    requires ReadyFor(t, intent) && WeaponOf(t, intent).delivery.ProjectileDelivery?
    ensures var p := Launch(env, t, intent, WeaponOf(t, intent).delivery);
            FireOne(env, t, intent).results ==
            t.results + [Fired(ShotAnswer(WeaponOf(t, intent))),
                         ProjectileSpawned(t.nextId, intent.entity, p.position, p.velocity)]
  {
    FireOneAdds(env, t, intent);
  }

  // ----- the order of a tick -----

  function Naming(e: EntityId, id: WeaponId): FireIntent -> bool
  {
    (i: FireIntent) => i.entity == e && i.weapon == id
  }

  /** By entity, then by weapon. */
  ghost predicate InFiringOrder(intents: seq<FireIntent>)
  {
    forall i, j :: 0 <= i < j < |intents| ==>
      intents[i].entity < intents[j].entity
      || (intents[i].entity == intents[j].entity && TextLeq(intents[i].weapon, intents[j].weapon))
  }

  /**
   Intents are resolved by entity and then by weapon, those for one weapon in the order in which they
   arrive, each exactly once, after the timers of all weapons.
   */
  lemma IntentsAreOrdered(env: Env, vitals: Vitals, state: TickState, cursor: nat, intents: seq<FireIntent>)
      returns (ordered: seq<FireIntent>)
    ensures multiset(ordered) == multiset(intents) && InFiringOrder(ordered)
    ensures forall e, id :: Filter(ordered, Naming(e, id)) == Filter(intents, Naming(e, id))
    ensures FirePhase(env, vitals, state, cursor, intents) == FireAll(env, StartOf(state, vitals, cursor), ordered)
  {
    ordered := SortBy(intents, IntentLeq);
    IntentPreorder();
    SortMultiset(intents, IntentLeq);
    SortSorted(intents, IntentLeq);
    forall e, id ensures Filter(ordered, Naming(e, id)) == Filter(intents, Naming(e, id)) {
      var own := Filter(intents, Naming(e, id));
      FilterSort(intents, IntentLeq, Naming(e, id));
      forall i, j | 0 <= i < j < |own| ensures IntentLeq(own[i], own[j]) {
        assert own[i] in own && own[j] in own;
        TiesPullTheSameTrigger(own[i], own[j]);
      }
      SortOfSorted(own, IntentLeq);
    }
  }

  // ----- completed reloads -----

  function EndsLoading(): EquippedWeapon -> bool
  {
    (w: EquippedWeapon) => LoadsWithin(w.state, 1)
  }

  /** A tick reports first, in table order, exactly the reloads that its one tick completes. */
  lemma {:induction false} ReloadsAreExact(table: seq<EquippedWeapon>)
    ensures var done := Filter(table, EndsLoading());
            && |Reloads(table)| == |done|
            && forall i :: 0 <= i < |done| ==>
                 Reloads(table)[i] == Reloaded(ReloadCompleted(done[i].definition.id, done[i].state.reloadAmount,
                                                               ChamberedAfter(done[i].state, 1)))
  {
    if table != [] {
      ReloadsAreExact(table[1..]);
      FiresAfter(table[0].definition, table[0].state, 1);
    }
  }
}
