/**
 One combat tick as a function of everything it reads (packages/simulation/src/combat.ts):
 advance weapons, resolve fire intents, advance projectiles in flight.
 */
module Combat {
  import opened Wrappers
  import opened Sorting
  import opened Text
  import opened Geometry
  import opened Damage
  import opened World
  import opened Targeting
  import opened Delivery
  import opened Impact
  import opened Projectiles
  import opened Weapon
  import opened Rng

  type StatusEffectId = string

  datatype EquippedWeapon = EquippedWeapon(entity: EntityId, definition: WeaponDefinition, delivery: DamageDelivery,
                                           state: WeaponState)

  /** What the orchestrator carries between ticks. */
  datatype TickState = TickState(weapons: seq<EquippedWeapon>, projectiles: seq<Projectile>, nextProjectileId: int)

  function InitialTickState(weapons: seq<EquippedWeapon>): TickState
  {
    TickState(weapons, [], 1)
  }

  datatype FireIntent = FireIntent(entity: EntityId, weapon: WeaponId, aim: Vec2, origin: Option<Vec2>,
                                   heldTicks: Option<int>, appliesStatus: seq<StatusEffectId>)

  datatype CombatResult =
    | Reloaded(completed: ReloadCompleted)
    | Fired(fire: FireOutcome)
    | Damaged(outcome: DamageOutcome)
    | ProjectileSpawned(id: ProjectileId, source: EntityId, at: Vec2, velocity: Vec2)
    | InFlight(event: ProjectileEvent)
    | StatusApplied(target: EntityId, effect: StatusEffectId, source: EntityId)

  /** What a tick reads and never changes. */
  datatype Env = Env(m: Maths, scene: Scene, policy: Policy, draws: Draws)

  // ----- orders -----

  predicate KeyLeq(e: EntityId, id: string, f: EntityId, jd: string)
  {
    e < f || (e == f && TextLeq(id, jd))
  }

  predicate WeaponLeq(a: EquippedWeapon, b: EquippedWeapon)
  {
    KeyLeq(a.entity, a.definition.id, b.entity, b.definition.id)
  }

  predicate IntentLeq(a: FireIntent, b: FireIntent)
  {
    KeyLeq(a.entity, a.weapon, b.entity, b.weapon)
  }

  predicate ProjectileLeq(a: Projectile, b: Projectile)
  {
    a.id <= b.id
  }

  // ----- the weapon table: an insertion-ordered map keyed by entity and weapon -----

  predicate Keyed(w: EquippedWeapon, entity: EntityId, weapon: WeaponId)
  {
    w.entity == entity && w.definition.id == weapon
  }

  function Lookup(table: seq<EquippedWeapon>, entity: EntityId, weapon: WeaponId): Option<EquippedWeapon>
  {
    if table == [] then None
    else if Keyed(table[0], entity, weapon) then Some(table[0])
    else Lookup(table[1..], entity, weapon)
  }

  function Put(table: seq<EquippedWeapon>, w: EquippedWeapon): seq<EquippedWeapon>
  {
    if table == [] then [w]
    else if Keyed(table[0], w.entity, w.definition.id) then [w] + table[1..]
    else [table[0]] + Put(table[1..], w)
  }

  function PutAll(table: seq<EquippedWeapon>, weapons: seq<EquippedWeapon>): seq<EquippedWeapon>
    decreases weapons
  {
    if weapons == [] then table else PutAll(Put(table, weapons[0]), weapons[1..])
  }

  // ----- phase 1: weapon timers -----

  function Cooled(w: EquippedWeapon): EquippedWeapon
  {
    w.(state := AdvanceWeapon(w.definition, w.state, 1).0)
  }

  function CoolAll(table: seq<EquippedWeapon>): seq<EquippedWeapon>
  {
    if table == [] then [] else [Cooled(table[0])] + CoolAll(table[1..])
  }

  function Reloads(table: seq<EquippedWeapon>): seq<CombatResult>
  {
    if table == [] then []
    else
      var reload := AdvanceWeapon(table[0].definition, table[0].state, 1).1;
      (if reload.Some? then [Reloaded(reload.value)] else []) + Reloads(table[1..])
  }

  // ----- phase 2: fire intents -----

  /** The running state of a tick. */
  datatype Tally = Tally(
    table: seq<EquippedWeapon>,
    vitals: Vitals,
    cursor: nat,
    spawned: seq<Projectile>,
    nextId: int,
    results: seq<CombatResult>,
    knockbacks: seq<Knockback>)

  function OriginOf(scene: Scene, intent: FireIntent): Vec2
  {
    if intent.origin.Some? then intent.origin.value
    else if intent.entity in scene.positions then scene.positions[intent.entity]
    else Vec2(0.0, 0.0)
  }

  function DamageResults(outcomes: seq<DamageOutcome>): seq<CombatResult>
  {
    if outcomes == [] then [] else [Damaged(outcomes[0])] + DamageResults(outcomes[1..])
  }

  function StatusesOn(target: EntityId, effects: seq<StatusEffectId>, source: EntityId): seq<CombatResult>
  {
    if effects == [] then [] else [StatusApplied(target, effects[0], source)] + StatusesOn(target, effects[1..], source)
  }

  /** The declared effects, once per outcome that dealt damage. */
  function Statuses(outcomes: seq<DamageOutcome>, effects: seq<StatusEffectId>, source: EntityId): seq<CombatResult>
  {
    if outcomes == [] then []
    else
      (if DamageDealt(outcomes[0]) then StatusesOn(outcomes[0].target, effects, source) else [])
      + Statuses(outcomes[1..], effects, source)
  }

  function SourceOf(scene: Scene, entity: EntityId): DamageSource
  {
    DamageSource(Some(entity), TeamOf(scene.teams, entity))
  }

  /** An immediate delivery: its planned hits, landed now, with the wielder hidden. */
  ghost function Volley(env: Env, t: Tally, intent: FireIntent, delivery: DamageDelivery): Resolution
  {
    var shot := Shot(OriginOf(env.scene, intent), intent.aim, intent.heldTicks);
    var plan := Plan(env.m, Excluding(env.scene, intent.entity), delivery, shot, env.draws, t.cursor);
    ApplyHits(Impulse(env.m), t.vitals, env.scene.teams, SourceOf(env.scene, intent.entity), env.policy, plan)
  }

  function Launch(env: Env, t: Tally, intent: FireIntent, delivery: DamageDelivery): Projectile
    requires delivery.ProjectileDelivery?
  {
    CreateProjectile(env.m, t.nextId, intent.entity, TeamOf(env.scene.teams, intent.entity),
                     OriginOf(env.scene, intent), intent.aim, delivery)
  }

  ghost function FireOne(env: Env, t: Tally, intent: FireIntent): Tally
  {
    match Lookup(t.table, intent.entity, intent.weapon)
    case None => t
    case Some(w) =>
      var (state, outcome) := FireWeapon(w.definition, w.state);
      var armed := t.(table := Put(t.table, w.(state := state)), results := t.results + [Fired(outcome)]);
      if !outcome.WeaponFired? then armed
      else if w.delivery.ProjectileDelivery? then
        var p := Launch(env, t, intent, w.delivery);
        armed.(spawned := t.spawned + [p], nextId := t.nextId + 1,
               results := armed.results + [ProjectileSpawned(p.id, p.source, p.position, p.velocity)])
      else
        var r := Volley(env, t, intent, w.delivery);
        armed.(vitals := r.vitals, cursor := t.cursor + FloatsDrawn(w.delivery),
               results := armed.results + DamageResults(r.outcomes)
                 + Statuses(r.outcomes, intent.appliesStatus, intent.entity),
               knockbacks := t.knockbacks + r.knockbacks)
  }

  ghost function FireAll(env: Env, t: Tally, intents: seq<FireIntent>): Tally
    decreases intents
  {
    if intents == [] then t else FireAll(env, FireOne(env, t, intents[0]), intents[1..])
  }

  // ----- phase 3: projectiles in flight -----

  datatype Flights = Flights(vitals: Vitals, alive: seq<Projectile>, results: seq<CombatResult>,
                             knockbacks: seq<Knockback>)

  function FlightResults(events: seq<ProjectileEvent>): seq<CombatResult>
  {
    if events == [] then [] else [InFlight(events[0])] + FlightResults(events[1..])
  }

  function Continue(f: Flights, s: StepResult): Flights
  {
    Flights(s.vitals, if s.alive.Some? then f.alive + [s.alive.value] else f.alive,
            f.results + FlightResults(s.events), f.knockbacks + s.knockbacks)
  }

  ghost function FlyOne(env: Env, f: Flights, p: Projectile): Flights
  {
    Continue(f, Step(env.m, Excluding(env.scene, p.source), env.policy, f.vitals, p))
  }

  ghost function FlyAll(env: Env, f: Flights, projectiles: seq<Projectile>): Flights
    decreases projectiles
  {
    if projectiles == [] then f else FlyAll(env, FlyOne(env, f, projectiles[0]), projectiles[1..])
  }

  // ----- the tick -----

  datatype TickResult = TickResult(vitals: Vitals, state: TickState, cursor: nat, results: seq<CombatResult>,
                                   knockbacks: seq<Knockback>)

  /** Phases 1 and 2 of a tick. */
  ghost function FirePhase(env: Env, vitals: Vitals, state: TickState, cursor: nat, intents: seq<FireIntent>): Tally
  {
    var table := PutAll([], SortBy(state.weapons, WeaponLeq));
    FireAll(env, Tally(CoolAll(table), vitals, cursor, [], state.nextProjectileId, Reloads(table), []),
            SortBy(intents, IntentLeq))
  }

  ghost function FlightPhase(env: Env, t: Tally, state: TickState): Flights
  {
    FlyAll(env, Flights(t.vitals, [], t.results, t.knockbacks), SortBy(state.projectiles, ProjectileLeq))
  }

  ghost function RunTick(env: Env, vitals: Vitals, state: TickState, cursor: nat, intents: seq<FireIntent>): TickResult
  {
    var t := FirePhase(env, vitals, state, cursor, intents);
    var f := FlightPhase(env, t, state);
    TickResult(f.vitals, TickState(SortBy(t.table, WeaponLeq), f.alive + t.spawned, t.nextId), t.cursor, f.results,
               f.knockbacks)
  }

  // ----- the index never changes a tick -----

  function BareEnv(env: Env): Env
  {
    env.(scene := WithoutIndex(env.scene))
  }

  lemma FireOneIgnoresIndex(env: Env, t: Tally, intent: FireIntent)
    requires Lawful(env.m) && Faithful(env.scene)
    ensures FireOne(env, t, intent) == FireOne(BareEnv(env), t, intent)
  {
    var found := Lookup(t.table, intent.entity, intent.weapon);
    if found.Some? {
      ExcludingIsFaithful(env.scene, intent.entity);
      var shot := Shot(OriginOf(env.scene, intent), intent.aim, intent.heldTicks);
      PlanIgnoresIndex(env.m, Excluding(env.scene, intent.entity), found.value.delivery, shot, env.draws, t.cursor);
    }
  }

  lemma {:induction false} FireAllIgnoresIndex(env: Env, t: Tally, intents: seq<FireIntent>)
    requires Lawful(env.m) && Faithful(env.scene)
    ensures FireAll(env, t, intents) == FireAll(BareEnv(env), t, intents)
    decreases intents
  {
    if intents != [] {
      FireOneIgnoresIndex(env, t, intents[0]);
      FireAllIgnoresIndex(env, FireOne(env, t, intents[0]), intents[1..]);
    }
  }

  lemma {:induction false} FlyAllIgnoresIndex(env: Env, f: Flights, projectiles: seq<Projectile>)
    requires Lawful(env.m) && Faithful(env.scene)
    ensures FlyAll(env, f, projectiles) == FlyAll(BareEnv(env), f, projectiles)
    decreases projectiles
  {
    if projectiles != [] {
      var p := projectiles[0];
      ExcludingIsFaithful(env.scene, p.source);
      StepIgnoresIndex(env.m, Excluding(env.scene, p.source), env.policy, f.vitals, p);
      FlyAllIgnoresIndex(env, FlyOne(env, f, p), projectiles[1..]);
    }
  }

  /** A tick over any faithful index gives the same health, state, results and knockbacks as the full scan. */
  lemma TickIgnoresIndex(env: Env, vitals: Vitals, state: TickState, cursor: nat, intents: seq<FireIntent>)
    requires Lawful(env.m) && Faithful(env.scene)
    ensures RunTick(env, vitals, state, cursor, intents) == RunTick(BareEnv(env), vitals, state, cursor, intents)
  {
    var table := PutAll([], SortBy(state.weapons, WeaponLeq));
    var start := Tally(CoolAll(table), vitals, cursor, [], state.nextProjectileId, Reloads(table), []);
    FireAllIgnoresIndex(env, start, SortBy(intents, IntentLeq));
    var t := FirePhase(env, vitals, state, cursor, intents);
    FlyAllIgnoresIndex(env, Flights(t.vitals, [], t.results, t.knockbacks), SortBy(state.projectiles, ProjectileLeq));
  }
}
