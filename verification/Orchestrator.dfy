/**
 `runCombatTick` in its own form (packages/simulation/src/combat.ts): loops that rewrite the
 weapon table, push results and write health through the port, proved to be `RunTick`.
 */
module Orchestrator {
  import opened Wrappers
  import opened Sorting
  import opened Geometry
  import opened Damage
  import opened World
  import opened Targeting
  import opened Delivery
  import opened Impact
  import opened Resolvers
  import opened Projectiles
  import opened Weapon
  import opened Combat
  import opened Rng

  class SimulationClock {
    var tick: nat

    constructor (start: nat)
      ensures tick == start
    {
      tick := start;
    }

    method Advance(ticks: nat)
      modifies this
      ensures tick == old(tick) + ticks
    {
      tick := tick + ticks;
    }
  }

  /** Advance every weapon's timers in place, reporting completed reloads. */
  method CoolWeapons(table: seq<EquippedWeapon>) returns (cooled: seq<EquippedWeapon>, results: seq<CombatResult>)
    ensures cooled == CoolAll(table) && results == Reloads(table)
  {
    cooled, results := table, [];
    var i := 0;
    while i < |table|
      invariant 0 <= i <= |table| == |cooled|
      invariant cooled[i..] == table[i..]
      invariant cooled[..i] + CoolAll(table[i..]) == CoolAll(table)
      invariant results + Reloads(table[i..]) == Reloads(table)
    {
      assert table[i..][1..] == table[i + 1..] && cooled[i] == table[i];
      var (state, reload) := AdvanceWeapon(cooled[i].definition, cooled[i].state, 1);
      if reload.Some? {
        results := results + [Reloaded(reload.value)];
      }
      ghost var before := cooled;
      cooled := cooled[i := cooled[i].(state := state)];
      assert cooled[..i + 1] == before[..i] + [Cooled(table[i])];
      i := i + 1;
    }
    assert cooled[..i] == cooled;
  }

  method ReportDamage(outcomes: seq<DamageOutcome>) returns (results: seq<CombatResult>)
    ensures results == DamageResults(outcomes)
  {
    results := [];
    var i := 0;
    while i < |outcomes|
      invariant 0 <= i <= |outcomes|
      invariant results + DamageResults(outcomes[i..]) == DamageResults(outcomes)
    {
      assert outcomes[i..][1..] == outcomes[i + 1..];
      results := results + [Damaged(outcomes[i])];
      i := i + 1;
    }
  }

  method ReportEffects(target: EntityId, effects: seq<StatusEffectId>, source: EntityId)
      returns (results: seq<CombatResult>)
    ensures results == StatusesOn(target, effects, source)
  {
    results := [];
    var i := 0;
    while i < |effects|
      invariant 0 <= i <= |effects|
      invariant results + StatusesOn(target, effects[i..], source) == StatusesOn(target, effects, source)
    {
      assert effects[i..][1..] == effects[i + 1..];
      results := results + [StatusApplied(target, effects[i], source)];
      i := i + 1;
    }
  }

  /** Report every outcome, then the declared effects of those that dealt damage. */
  method ReportVolley(outcomes: seq<DamageOutcome>, effects: seq<StatusEffectId>, source: EntityId)
      returns (results: seq<CombatResult>)
    ensures results == DamageResults(outcomes) + Statuses(outcomes, effects, source)
  {
    results := ReportDamage(outcomes);
    var i := 0;
    while i < |outcomes|
      invariant 0 <= i <= |outcomes|
      invariant results + Statuses(outcomes[i..], effects,
                                   source) == DamageResults(outcomes) + Statuses(outcomes, effects, source)
    {
      ghost var rest := Statuses(outcomes[i + 1..], effects, source);
      assert outcomes[i..][1..] == outcomes[i + 1..];
      if DamageDealt(outcomes[i]) {
        var applied := ReportEffects(outcomes[i].target, effects, source);
        Regroup(results, applied, rest);
        results := results + applied;
      } else {
        assert [] + rest == rest;
      }
      i := i + 1;
    }
  }

  /** The mutable locals of the orchestrator. */
  datatype Board = Board(weapons: seq<EquippedWeapon>, spawned: seq<Projectile>, nextId: int,
                         results: seq<CombatResult>, knockbacks: seq<Knockback>)

  ghost function TallyOf(b: Board, world: CombatWorld, rng: SeededRng): Tally
    reads world, rng
  {
    Tally(b.weapons, world.vitals, rng.cursor, b.spawned, b.nextId, b.results, b.knockbacks)
  }

  /** Resolve one fire intent. */
  method ResolveIntent(m: Maths, world: CombatWorld, rng: SeededRng, policy: Policy, intent: FireIntent, b: Board,
                       ghost env: Env) returns (next: Board)
    requires world.Valid() && env == Env(m, world.SceneOf(), policy, rng.draws)
    modifies world, rng
    ensures world.Valid() && world.roster == old(world.roster)
    ensures TallyOf(next, world, rng) == FireOne(env, old(TallyOf(b, world, rng)), intent)
  {
    var found := Lookup(b.weapons, intent.entity, intent.weapon);
    if found.None? {
      return b;
    }
    var equipped := found.value;
    var (state, outcome) := FireWeapon(equipped.definition, equipped.state);
    next := b.(weapons := Put(b.weapons, equipped.(state := state)), results := b.results + [Fired(outcome)]);
    if !outcome.WeaponFired? {
      return;
    }
    var origin := if intent.origin.Some? then intent.origin.value
                  else if intent.entity in world.positions then world.positions[intent.entity]
                  else Vec2(0.0, 0.0);
    var team := TeamOf(world.teams, intent.entity);
    if equipped.delivery.ProjectileDelivery? {
      var p := CreateProjectile(m, next.nextId, intent.entity, team, origin, intent.aim, equipped.delivery);
      return next.(spawned := next.spawned + [p], nextId := next.nextId + 1,
                   results := next.results + [ProjectileSpawned(p.id, p.source, p.position, p.velocity)]);
    }
    next := FireVolley(m, world, rng, policy, intent, equipped, Shot(origin, intent.aim, intent.heldTicks), next, env);
  }

  /** An immediate delivery, resolved with the wielder hidden. */
  method FireVolley(m: Maths, world: CombatWorld, rng: SeededRng, policy: Policy, intent: FireIntent,
                    equipped: EquippedWeapon, shot: Shot, b: Board, ghost env: Env) returns (next: Board)
    requires world.Valid() && env == Env(m, world.SceneOf(), policy, rng.draws)
    requires !equipped.delivery.ProjectileDelivery?
    requires shot == Shot(OriginOf(env.scene, intent), intent.aim, intent.heldTicks)
    modifies world, rng
    ensures world.Valid() && world.roster == old(world.roster)
    ensures var t := old(TallyOf(b, world, rng));
            var r := Volley(env, t, intent, equipped.delivery);
            TallyOf(next, world, rng) ==
            t.(vitals := r.vitals, cursor := t.cursor + FloatsDrawn(equipped.delivery),
               results := t.results + DamageResults(r.outcomes)
                 + Statuses(r.outcomes, intent.appliesStatus, intent.entity),
               knockbacks := t.knockbacks + r.knockbacks)
  {
    var ctx := DeliveryContext(m, View(world, Some(intent.entity)),
                               DamageSource(Some(intent.entity), TeamOf(world.teams, intent.entity)),
                               shot, policy, rng);
    var outcomes, knockbacks := ResolveDelivery(equipped.delivery, ctx);
    var reported := ReportVolley(outcomes, intent.appliesStatus, intent.entity);
    Regroup(b.results, DamageResults(outcomes), Statuses(outcomes, intent.appliesStatus, intent.entity));
    next := b.(results := b.results + reported, knockbacks := b.knockbacks + knockbacks);
  }

  method FirePhaseLoop(m: Maths, world: CombatWorld, rng: SeededRng, policy: Policy, intents: seq<FireIntent>,
                       b: Board, ghost env: Env) returns (board: Board)
    requires world.Valid() && env == Env(m, world.SceneOf(), policy, rng.draws)
    modifies world, rng
    ensures world.Valid() && world.roster == old(world.roster)
    ensures TallyOf(board, world, rng) == FireAll(env, old(TallyOf(b, world, rng)), intents)
  {
    board := b;
    var i := 0;
    while i < |intents|
      invariant 0 <= i <= |intents|
      invariant world.Valid() && world.roster == old(world.roster)
      invariant FireAll(env, TallyOf(board, world, rng),
                        intents[i..]) == FireAll(env, old(TallyOf(b, world, rng)), intents)
    {
      assert intents[i..][1..] == intents[i + 1..];
      board := ResolveIntent(m, world, rng, policy, intents[i], board, env);
      i := i + 1;
    }
  }

  /** Advance the projectiles in flight, keeping the survivors. */
  method FlightPhaseLoop(m: Maths, world: CombatWorld, policy: Policy, projectiles: seq<Projectile>,
                         results0: seq<CombatResult>, knockbacks0: seq<Knockback>, ghost env: Env)
    returns (alive: seq<Projectile>, results: seq<CombatResult>, knockbacks: seq<Knockback>)
    requires world.Valid() && env.m == m && env.scene == world.SceneOf() && env.policy == policy
    modifies world
    ensures world.Valid() && world.roster == old(world.roster)
    ensures Flights(world.vitals, alive, results, knockbacks) ==
            FlyAll(env, Flights(old(world.vitals), [], results0, knockbacks0), projectiles)
  {
    alive, results, knockbacks := [], results0, knockbacks0;
    ghost var start := Flights(world.vitals, [], results0, knockbacks0);
    var i := 0;
    while i < |projectiles|
      invariant 0 <= i <= |projectiles|
      invariant world.Valid() && world.roster == old(world.roster)
      invariant FlyAll(env, Flights(world.vitals, alive, results, knockbacks),
                       projectiles[i..]) == FlyAll(env, start, projectiles)
    {
      assert projectiles[i..][1..] == projectiles[i + 1..];
      alive, results, knockbacks := FlyNext(m, world, policy, projectiles[i], alive, results, knockbacks, env);
      i := i + 1;
    }
  }

  method FlyNext(m: Maths, world: CombatWorld, policy: Policy, p: Projectile,
                 alive0: seq<Projectile>, results0: seq<CombatResult>, knockbacks0: seq<Knockback>, ghost env: Env)
    returns (alive: seq<Projectile>, results: seq<CombatResult>, knockbacks: seq<Knockback>)
    requires world.Valid() && env.m == m && env.scene == world.SceneOf() && env.policy == policy
    modifies world
    ensures world.Valid() && world.roster == old(world.roster)
    ensures Flights(world.vitals, alive, results, knockbacks) ==
            FlyOne(env, Flights(old(world.vitals), alive0, results0, knockbacks0), p)
  {
    alive, results := alive0, results0;
    var survivor, events, pushes := AdvanceProjectile(m, View(world, Some(p.source)), p, policy);
    var i := 0;
    while i < |events|
      invariant 0 <= i <= |events|
      invariant results + FlightResults(events[i..]) == results0 + FlightResults(events)
    {
      assert events[i..][1..] == events[i + 1..];
      results := results + [InFlight(events[i])];
      i := i + 1;
    }
    knockbacks := knockbacks0 + pushes;
    if survivor.Some? {
      alive := alive + [survivor.value];
    }
  }

  /** One combat tick over a world, with or without its spatial index. */
  method RunCombatTick(m: Maths, world: CombatWorld, state: TickState, clock: SimulationClock, rng: SeededRng,
                       policy: Policy, intents: seq<FireIntent>)
    returns (next: TickState, results: seq<CombatResult>, knockbacks: seq<Knockback>)
    requires world.Valid()
    modifies world, rng, clock
    ensures world.Valid() && world.roster == old(world.roster)
    ensures clock.tick == old(clock.tick) + 1
    ensures TickResult(world.vitals, next, rng.cursor, results, knockbacks) ==
            RunTick(Env(m, old(world.SceneOf()), policy, rng.draws), old(world.vitals), state, old(rng.cursor), intents)
  {
    ghost var env := Env(m, world.SceneOf(), policy, rng.draws);
    var table := FillTable(SortBy(state.weapons, WeaponLeq));
    var cooled, reloads := CoolWeapons(table);
    var board := Board(cooled, [], state.nextProjectileId, reloads, []);
    board := FirePhaseLoop(m, world, rng, policy, SortBy(intents, IntentLeq), board, env);
    var alive;
    alive, results, knockbacks := FlightPhaseLoop(m, world, policy, SortBy(state.projectiles, ProjectileLeq),
                                                  board.results, board.knockbacks, env);
    clock.Advance(1);
    next := TickState(SortBy(board.weapons, WeaponLeq), alive + board.spawned, board.nextId);
  }

  method FillTable(weapons: seq<EquippedWeapon>) returns (table: seq<EquippedWeapon>)
    ensures table == PutAll([], weapons)
  {
    table := [];
    var i := 0;
    while i < |weapons|
      invariant 0 <= i <= |weapons|
      invariant PutAll(table, weapons[i..]) == PutAll([], weapons)
    {
      assert weapons[i..][1..] == weapons[i + 1..];
      table := Put(table, weapons[i]);
      i := i + 1;
    }
  }
}
