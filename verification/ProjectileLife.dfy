/**
 Identity and lifetime of projectiles over whole runs of combat ticks
 (packages/simulation/src/combat.ts and projectile.ts).
 */
module ProjectileLife {
  import opened Wrappers
  import opened Sorting
  import opened Geometry
  import opened Damage
  import opened World
  import opened Targeting
  import opened Delivery
  import opened Impact
  import opened Projectiles
  import opened Weapon
  import opened Combat
  import opened CombatRuns
  import opened FireOrder

  /** In-flight projectiles strictly ascend by id and every id is already spent. */
  ghost predicate Ordered(state: TickState)
  {
    && AscendingIds(state.projectiles)
    && (forall i :: 0 <= i < |state.projectiles| ==> state.projectiles[i].id < state.nextProjectileId)
  }

  function Flying(projectiles: seq<Projectile>, id: ProjectileId): nat
  {
    if projectiles == [] then 0 else (if projectiles[0].id == id then 1 else 0) + Flying(projectiles[1..], id)
  }

  function SpawnIn(r: CombatResult, id: ProjectileId): nat
  {
    if r.ProjectileSpawned? && r.id == id then 1 else 0
  }

  function EventEnds(e: ProjectileEvent, id: ProjectileId): nat
  {
    if e.ProjectileExpired? && e.projectile == id then 1 else 0
  }

  function EndIn(r: CombatResult, id: ProjectileId): nat
  {
    if r.InFlight? then EventEnds(r.event, id) else 0
  }

  /** How often a run reports the spawn of `id`. */
  function Spawns(results: seq<CombatResult>, id: ProjectileId): nat
  {
    if results == [] then 0 else SpawnIn(results[0], id) + Spawns(results[1..], id)
  }

  /** How often a run reports the end of `id`. */
  function Ends(results: seq<CombatResult>, id: ProjectileId): nat
  {
    if results == [] then 0 else EndIn(results[0], id) + Ends(results[1..], id)
  }

  lemma {:induction false} CountsAppend(a: seq<CombatResult>, b: seq<CombatResult>, id: ProjectileId)
    ensures Spawns(a + b, id) == Spawns(a, id) + Spawns(b, id)
    ensures Ends(a + b, id) == Ends(a, id) + Ends(b, id)
  {
    if a == [] {
      assert a + b == b;
    } else {
      CountsAppend(a[1..], b, id);
      assert (a + b)[1..] == a[1..] + b;
    }
  }

  lemma {:induction false} FlyingAppend(a: seq<Projectile>, b: seq<Projectile>, id: ProjectileId)
    ensures Flying(a + b, id) == Flying(a, id) + Flying(b, id)
  {
    if a == [] {
      assert a + b == b;
    } else {
      FlyingAppend(a[1..], b, id);
      assert (a + b)[1..] == a[1..] + b;
    }
  }

  lemma CountsOne(r: CombatResult, id: ProjectileId)
    ensures Spawns([r], id) == SpawnIn(r, id) && Ends([r], id) == EndIn(r, id)
  {
    assert [r][1..] == [];
  }

  lemma {:induction false} QuietResults(results: seq<CombatResult>, id: ProjectileId)
    requires forall r :: r in results ==> !r.ProjectileSpawned? && !r.InFlight?
    ensures Spawns(results, id) == 0 && Ends(results, id) == 0
  {
    if results != [] {
      assert results[0] in results;
      QuietResults(results[1..], id);
    }
  }

  lemma {:induction false} ReloadsAreQuiet(table: seq<EquippedWeapon>)
    ensures forall r :: r in Reloads(table) ==> r.Reloaded?
  {
    if table != [] {
      ReloadsAreQuiet(table[1..]);
    }
  }

  lemma {:induction false} StatusesOnAreQuiet(target: EntityId, effects: seq<StatusEffectId>, source: EntityId)
    ensures forall r :: r in StatusesOn(target, effects, source) ==> r.StatusApplied?
  {
    if effects != [] {
      StatusesOnAreQuiet(target, effects[1..], source);
    }
  }

  lemma {:induction false} VolleyResultsAreQuiet(outcomes: seq<DamageOutcome>, effects: seq<StatusEffectId>,
      source: EntityId)
    ensures forall r :: r in DamageResults(outcomes) ==> r.Damaged?
    ensures forall r :: r in Statuses(outcomes, effects, source) ==> r.StatusApplied?
  {
    if outcomes != [] {
      VolleyResultsAreQuiet(outcomes[1..], effects, source);
      StatusesOnAreQuiet(outcomes[0].target, effects, source);
    }
  }

  // ----- spawning -----

  /** Since `first`, exactly the ids from `first` on were spawned, one projectile each, and nothing ended. */
  ghost predicate SpawnedSince(first: int, spawned: seq<Projectile>, nextId: int, results: seq<CombatResult>)
  {
    && nextId == first + |spawned|
    && (forall i :: 0 <= i < |spawned| ==> spawned[i].id == first + i)
    && (forall id :: Ends(results, id) == 0)
    && (forall id :: Spawns(results, id) == if first <= id < nextId then 1 else 0)
  }

  lemma NewResultsCount(env: Env, t: Tally, intent: FireIntent, id: ProjectileId)
    ensures Ends(NewResults(env, t, intent), id) == 0
    ensures Spawns(NewResults(env, t, intent), id) == if t.nextId <= id < FireOne(env, t, intent).nextId then 1 else 0
  {
    var found := Lookup(t.table, intent.entity, intent.weapon);
    if found.Some? {
      var w := found.value;
      var outcome := FireWeapon(w.definition, w.state).1;
      CountsOne(Fired(outcome), id);
      if outcome.WeaponFired? {
        if w.delivery.ProjectileDelivery? {
          var p := Launch(env, t, intent, w.delivery);
          var spawned := ProjectileSpawned(p.id, p.source, p.position, p.velocity);
          CountsOne(spawned, id);
          CountsAppend([Fired(outcome)], [spawned], id);
        } else {
          var outcomes := Volley(env, t, intent, w.delivery).outcomes;
          VolleyResultsAreQuiet(outcomes, intent.appliesStatus, intent.entity);
          var rest := DamageResults(outcomes) + Statuses(outcomes, intent.appliesStatus, intent.entity);
          QuietResults(rest, id);
          CountsAppend([Fired(outcome)], rest, id);
        }
      }
    }
  }

  lemma FireOneSpawns(env: Env, first: int, t: Tally, intent: FireIntent)
    requires SpawnedSince(first, t.spawned, t.nextId, t.results)
    ensures var next := FireOne(env, t, intent);
            SpawnedSince(first, next.spawned, next.nextId, next.results)
  {
    var next := FireOne(env, t, intent);
    FireOneAdds(env, t, intent);
    forall id
      ensures Ends(next.results, id) == 0
      ensures Spawns(next.results, id) == if first <= id < next.nextId then 1 else 0
    {
      NewResultsCount(env, t, intent, id);
      CountsAppend(t.results, NewResults(env, t, intent), id);
    }
  }

  lemma {:induction false} FireAllSpawns(env: Env, first: int, t: Tally, intents: seq<FireIntent>)
    requires SpawnedSince(first, t.spawned, t.nextId, t.results)
    ensures var end := FireAll(env, t, intents);
            SpawnedSince(first, end.spawned, end.nextId, end.results)
    decreases intents
  {
    if intents != [] {
      FireOneSpawns(env, first, t, intents[0]);
      FireAllSpawns(env, first, FireOne(env, t, intents[0]), intents[1..]);
    }
  }

  lemma FirePhaseSpawns(env: Env, vitals: Vitals, state: TickState, cursor: nat, intents: seq<FireIntent>)
    ensures var t := FirePhase(env, vitals, state, cursor, intents);
            SpawnedSince(state.nextProjectileId, t.spawned, t.nextId, t.results)
  {
    var table := PutAll([], SortBy(state.weapons, WeaponLeq));
    ReloadsAreQuiet(table);
    forall id ensures Spawns(Reloads(table), id) == 0 && Ends(Reloads(table), id) == 0 {
      QuietResults(Reloads(table), id);
    }
    FireAllSpawns(env, state.nextProjectileId,
                  Tally(CoolAll(table), vitals, cursor, [], state.nextProjectileId, Reloads(table),
                        []), SortBy(intents, IntentLeq));
  }

  // ----- flying -----

  lemma EventsCount(a: ProjectileEvent, id: ProjectileId)
    ensures Spawns(FlightResults([a]), id) == 0 && Ends(FlightResults([a]), id) == EventEnds(a, id)
  {
    assert [a][1..] == [];
    CountsOne(InFlight(a), id);
    assert FlightResults([a]) == [InFlight(a)];
  }

  lemma TwoEventsCount(a: ProjectileEvent, b: ProjectileEvent, id: ProjectileId)
    ensures Spawns(FlightResults([a, b]), id) == 0
    ensures Ends(FlightResults([a, b]), id) == EventEnds(a, id) + EventEnds(b, id)
  {
    assert [a, b][1..] == [b];
    EventsCount(b, id);
    assert FlightResults([a, b]) == [InFlight(a)] + FlightResults([b]);
    CountsAppend([InFlight(a)], FlightResults([b]), id);
    CountsOne(InFlight(a), id);
  }

  /** One tick of one projectile: it either flies on a tick older, or ends with exactly one report. */
  lemma StepEndsOrAges(env: Env, vitals: Vitals, p: Projectile, id: ProjectileId)
    ensures var s := Step(env.m, Excluding(env.scene, p.source), env.policy, vitals, p);
            && Spawns(FlightResults(s.events), id) == 0
            && Ends(FlightResults(s.events), id) == (if s.alive.None? && p.id == id then 1 else 0)
            && (s.alive.Some? ==> s.alive.value.id == p.id && s.alive.value.source == p.source
                                  && 1 <= s.alive.value.ttlRemaining == p.ttlRemaining - 1)
  {
    var scene := Excluding(env.scene, p.source);
    var move := MoveOf(env.m, scene.blockers, SweepIn(env.m, scene, p.radius), p);
    match move
    case Halt(at) => EventsCount(ProjectileExpired(p.id, Stopped, at), id);
    case Strike(hit) =>
      var r := LandHit(Impulse(env.m), vitals, scene.teams, ProjectileSource(p), env.policy, StrikeOf(p, hit));
      TwoEventsCount(ProjectileDamage(r.outcomes[0]), ProjectileExpired(p.id, Hit, hit.position), id);
    case Expire(at) => TwoEventsCount(ProjectileMoved(p.id, at), ProjectileExpired(p.id, Ttl, at), id);
    case Fly(next) => EventsCount(ProjectileMoved(p.id, next.position), id);
  }

  /** `q` is the projectile `p` some ticks later, still in flight. */
  predicate Older(q: Projectile, p: Projectile, ticks: int)
  {
    && q.id == p.id && q.source == p.source
    && q.ttlRemaining == p.ttlRemaining - ticks && (ticks > 0 ==> q.ttlRemaining >= 1)
  }

  ghost predicate AscendingIds(projectiles: seq<Projectile>)
  {
    forall i, j :: 0 <= i < j < |projectiles| ==> projectiles[i].id < projectiles[j].id
  }

  /** `q` is one of the projectiles, a tick older. */
  ghost predicate TickOlder(q: Projectile, projectiles: seq<Projectile>)
  {
    exists p :: p in projectiles && Older(q, p, 1)
  }

  ghost predicate IdsBelow(alive: seq<Projectile>, rest: seq<Projectile>)
  {
    && AscendingIds(alive)
    && (forall p, q :: p in alive && q in rest ==> p.id < q.id)
  }

  lemma {:induction false} FlyAllCounts(env: Env, f: Flights, projectiles: seq<Projectile>, id: ProjectileId)
    ensures var end := FlyAll(env, f, projectiles);
            && Spawns(end.results, id) == Spawns(f.results, id)
            && Ends(end.results, id) + Flying(end.alive, id) ==
               Ends(f.results, id) + Flying(f.alive, id) + Flying(projectiles, id)
    decreases projectiles
  {
    if projectiles != [] {
      FlyOneCounts(env, f, projectiles[0], id);
      FlyAllCounts(env, FlyOne(env, f, projectiles[0]), projectiles[1..], id);
    }
  }

  lemma {:induction false} FlyAllSurvivors(env: Env, f: Flights, projectiles: seq<Projectile>)
    requires AscendingIds(projectiles) && IdsBelow(f.alive, projectiles)
    ensures var end := FlyAll(env, f, projectiles);
            && AscendingIds(end.alive)
            && forall q :: q in end.alive ==> q in f.alive || TickOlder(q, projectiles)
    decreases projectiles
  {
    if projectiles != [] {
      var p, rest := projectiles[0], projectiles[1..];
      FirstIdIsLeast(projectiles);
      FlyOneKeeps(env, f, p, rest);
      FlyAllSurvivors(env, FlyOne(env, f, p), rest);
      SurvivorsAreOlder(FlyAll(env, f, projectiles).alive, FlyOne(env, f, p).alive, f.alive, projectiles);
    }
  }

  lemma FirstIdIsLeast(projectiles: seq<Projectile>)
    requires projectiles != [] && AscendingIds(projectiles)
    ensures AscendingIds(projectiles[1..]) && forall q :: q in projectiles[1..] ==> projectiles[0].id < q.id
    ensures projectiles == [projectiles[0]] + projectiles[1..]
  {
    forall q | q in projectiles[1..] ensures projectiles[0].id < q.id {
      var j :| 0 < j < |projectiles| && projectiles[j] == q;
    }
  }

  lemma SurvivorsAreOlder(end: seq<Projectile>, next: seq<Projectile>, alive: seq<Projectile>,
                          projectiles: seq<Projectile>)
    requires projectiles != []
    requires forall q :: q in end ==> q in next || TickOlder(q, projectiles[1..])
    requires forall q :: q in next ==> q in alive || Older(q, projectiles[0], 1)
    ensures forall q :: q in end ==> q in alive || TickOlder(q, projectiles)
  {
    forall q | q in end && q !in alive ensures TickOlder(q, projectiles) {
      if q in next {
        assert projectiles[0] in projectiles && Older(q, projectiles[0], 1);
      } else {
        var p :| p in projectiles[1..] && Older(q, p, 1);
        assert p in projectiles;
      }
    }
  }

  lemma FlyOneCounts(env: Env, f: Flights, p: Projectile, id: ProjectileId)
    ensures var next := FlyOne(env, f, p);
            && Spawns(next.results, id) == Spawns(f.results, id)
            && Ends(next.results, id) + Flying(next.alive, id) ==
               Ends(f.results, id) + Flying(f.alive, id) + if p.id == id then 1 else 0
  {
    var s := Step(env.m, Excluding(env.scene, p.source), env.policy, f.vitals, p);
    StepEndsOrAges(env, f.vitals, p, id);
    CountsAppend(f.results, FlightResults(s.events), id);
    if s.alive.Some? {
      FlyingAppend(f.alive, [s.alive.value], id);
    }
  }

  lemma FlyOneKeeps(env: Env, f: Flights, p: Projectile, rest: seq<Projectile>)
    requires IdsBelow(f.alive, [p] + rest) && forall q :: q in rest ==> p.id < q.id
    ensures var next := FlyOne(env, f, p);
            && IdsBelow(next.alive, rest)
            && forall q :: q in next.alive ==> q in f.alive || Older(q, p, 1)
  {
    StepEndsOrAges(env, f.vitals, p, 0);
    OneMoreSurvivor(f.alive, Step(env.m, Excluding(env.scene, p.source), env.policy, f.vitals, p).alive, p, rest);
  }

  lemma OneMoreSurvivor(alive: seq<Projectile>, survivor: Option<Projectile>, p: Projectile, rest: seq<Projectile>)
    requires IdsBelow(alive, [p] + rest) && forall q :: q in rest ==> p.id < q.id
    requires survivor.Some? ==> survivor.value.id == p.id
    ensures IdsBelow(if survivor.Some? then alive + [survivor.value] else alive, rest)
  {
    assert p in [p] + rest && forall q :: q in rest ==> q in [p] + rest;
    if survivor.Some? {
      var next := alive + [survivor.value];
      forall i, j | 0 <= i < j < |next| ensures next[i].id < next[j].id {
        assert i < |alive| && next[i] in alive;
      }
    }
  }

  // ----- ticks and runs -----

  lemma {:induction false} NoneFlying(projectiles: seq<Projectile>, id: ProjectileId)
    requires forall p :: p in projectiles ==> p.id != id
    ensures Flying(projectiles, id) == 0
  {
    if projectiles != [] {
      assert projectiles[0] in projectiles;
      NoneFlying(projectiles[1..], id);
    }
  }

  lemma {:induction false} FlyingOnce(projectiles: seq<Projectile>, p: Projectile)
    requires AscendingIds(projectiles) && p in projectiles
    ensures Flying(projectiles, p.id) == 1
  {
    if projectiles[0] == p {
      forall q | q in projectiles[1..] ensures q.id != p.id {
        var j :| 0 < j < |projectiles| && projectiles[j] == q;
      }
      NoneFlying(projectiles[1..], p.id);
    } else {
      assert p in projectiles[1..];
      FlyingOnce(projectiles[1..], p);
      var j :| 0 < j < |projectiles| && projectiles[j] == p;
    }
  }

  lemma OnlyOne(projectiles: seq<Projectile>, p: Projectile)
    requires AscendingIds(projectiles) && p in projectiles
    ensures forall q :: q in projectiles && q.id == p.id ==> q == p
  {
    var i :| 0 <= i < |projectiles| && projectiles[i] == p;
    forall q | q in projectiles && q.id == p.id ensures q == p {
      var j :| 0 <= j < |projectiles| && projectiles[j] == q;
    }
  }

  lemma {:induction false} SpawnedFlying(spawned: seq<Projectile>, first: int, id: ProjectileId)
    requires forall i :: 0 <= i < |spawned| ==> spawned[i].id == first + i
    ensures Flying(spawned, id) == if first <= id < first + |spawned| then 1 else 0
  {
    if spawned != [] {
      SpawnedFlying(spawned[1..], first + 1, id);
    }
  }

  /** The books of projectiles over one stretch: ids are handed out once, and each is in flight or has ended once. */
  ghost predicate Tracked(before: TickState, after: TickState, results: seq<CombatResult>)
  {
    && Ordered(after) && before.nextProjectileId <= after.nextProjectileId
    && forall id ::
         && Spawns(results, id) == (if before.nextProjectileId <= id < after.nextProjectileId then 1 else 0)
         && Flying(before.projectiles, id) + Spawns(results, id) == Flying(after.projectiles, id) + Ends(results, id)
  }

  lemma SurvivorsFirst(alive: seq<Projectile>, spawned: seq<Projectile>, first: int, nextId: int)
    requires AscendingIds(alive)
    requires forall q :: q in alive ==> q.id < first
    requires nextId == first + |spawned| && forall i :: 0 <= i < |spawned| ==> spawned[i].id == first + i
    ensures var all := alive + spawned;
            && AscendingIds(all)
            && (forall i :: 0 <= i < |all| ==> all[i].id < nextId)
  {
    assert forall i :: 0 <= i < |alive| ==> alive[i] in alive;
  }

  /** The survivors of a tick are the projectiles that flew, a tick older, and still in order. */
  lemma FlightKeepsOrder(env: Env, t: Tally, state: TickState)
    requires Ordered(state)
    ensures var alive := FlightPhase(env, t, state).alive;
            && AscendingIds(alive)
            && forall q :: q in alive ==> TickOlder(q, state.projectiles) && q.id < state.nextProjectileId
  {
    SortOfSorted(state.projectiles, ProjectileLeq);
    FlyAllSurvivors(env, Flights(t.vitals, [], t.results, t.knockbacks), state.projectiles);
    forall q | q in FlightPhase(env, t, state).alive ensures q.id < state.nextProjectileId {
      assert TickOlder(q, state.projectiles);
      var p :| p in state.projectiles && Older(q, p, 1);
    }
  }

  /** The books of one tick. */
  lemma FlightCounts(env: Env, first: int, t: Tally, state: TickState, id: ProjectileId)
    requires Ordered(state) && SpawnedSince(first, t.spawned, t.nextId, t.results)
    ensures var f := FlightPhase(env, t, state);
            && Flying(state.projectiles, id) + Spawns(f.results, id) ==
               Flying(f.alive + t.spawned, id) + Ends(f.results, id)
            && Spawns(f.results, id) == Spawns(t.results, id)
  {
    SortOfSorted(state.projectiles, ProjectileLeq);
    FlyAllCounts(env, Flights(t.vitals, [], t.results, t.knockbacks), state.projectiles, id);
    FlyingAppend(FlightPhase(env, t, state).alive, t.spawned, id);
    SpawnedFlying(t.spawned, first, id);
  }

  lemma TickTracks(s: Sim, input: TickInput)
    requires Ordered(s.state)
    ensures Tracked(s.state, After(s, input).state, TickOf(s, input).results)
    ensures forall q :: q in After(s, input).state.projectiles ==>
              q.id >= s.state.nextProjectileId || TickOlder(q, s.state.projectiles)
  {
    var t := FirePhase(input.env, s.vitals, s.state, s.cursor, input.intents);
    FirePhaseSpawns(input.env, s.vitals, s.state, s.cursor, input.intents);
    FlightKeepsOrder(input.env, t, s.state);
    SurvivorsFirst(FlightPhase(input.env, t, s.state).alive, t.spawned, s.state.nextProjectileId, t.nextId);
    forall id {
      FlightCounts(input.env, s.state.nextProjectileId, t, s.state, id);
    }
  }

  /**
   Over every run: in-flight projectiles stay strictly ordered by id below the next id, every
   id is spawned at most once and never reused, and each spawned projectile is still in flight
   or has been reported ended, exactly once and never both.
   */
  lemma {:induction false} RunTracks(s: Sim, inputs: seq<TickInput>)
    requires Ordered(s.state)
    ensures Tracked(s.state, Run(s, inputs).state, Report(s, inputs))
    decreases inputs
  {
    if inputs != [] {
      var next := After(s, inputs[0]);
      TickTracks(s, inputs[0]);
      RunTracks(next, inputs[1..]);
      forall id {
        CountsAppend(TickOf(s, inputs[0]).results, Report(next, inputs[1..]), id);
      }
    }
  }

  lemma {:induction false} RunAges(s: Sim, inputs: seq<TickInput>)
    requires Ordered(s.state)
    ensures forall q :: q in Run(s, inputs).state.projectiles ==>
              q.id >= s.state.nextProjectileId || exists p :: p in s.state.projectiles && Older(q, p, |inputs|)
    decreases inputs
  {
    if inputs == [] {
      forall q | q in s.state.projectiles ensures Older(q, q, 0) {
      }
    } else {
      var next := After(s, inputs[0]);
      TickTracks(s, inputs[0]);
      RunAges(next, inputs[1..]);
      forall q | q in Run(s, inputs).state.projectiles && q.id < s.state.nextProjectileId
        ensures exists p :: p in s.state.projectiles && Older(q, p, |inputs|)
      {
        var r :| r in next.state.projectiles && Older(q, r, |inputs| - 1);
        assert r.id < s.state.nextProjectileId;
        assert TickOlder(r, s.state.projectiles);
        var p :| p in s.state.projectiles && Older(r, p, 1);
        assert Older(q, p, |inputs|);
      }
    }
  }

  /**
   A projectile's life is bounded: whatever happens, one with `ttlRemaining` ticks left is
   reported ended exactly once within the next `max(1, ttlRemaining)` ticks, and nothing later
   reports it again.
   */
  lemma ProjectileEndsInTime(s: Sim, inputs: seq<TickInput>, p: Projectile)
    requires Ordered(s.state) && p in s.state.projectiles
    requires |inputs| >= MaxInt(1, p.ttlRemaining)
    ensures Ends(Report(s, inputs), p.id) == 1
    ensures forall q :: q in Run(s, inputs).state.projectiles ==> q.id != p.id
  {
    RunTracks(s, inputs);
    RunAges(s, inputs);
    var end := Run(s, inputs).state.projectiles;
    FlyingOnce(s.state.projectiles, p);
    OnlyOne(s.state.projectiles, p);
    assert forall r :: r in s.state.projectiles && r.id == p.id ==> r.ttlRemaining - |inputs| < 1;
    NoneFlying(end, p.id);
  }

  lemma InitialIsOrdered(weapons: seq<EquippedWeapon>)
    ensures Ordered(InitialTickState(weapons)) && InitialTickState(weapons).weapons == weapons
    ensures forall id :: Flying(InitialTickState(weapons).projectiles, id) == 0
  {
  }

  // ----- from the reported spawn -----

  /** The fire phase after its first `i` intents. */
  ghost function FiredUpTo(env: Env, start: Tally, intents: seq<FireIntent>, i: nat): Tally
    requires i <= |intents|
  {
    FireAll(env, start, intents[..i])
  }

  /** Intent `i` reports `r`. */
  ghost predicate ReportedBy(env: Env, start: Tally, intents: seq<FireIntent>, i: nat, r: CombatResult)
  {
    i < |intents| && r in NewResults(env, FiredUpTo(env, start, intents, i), intents[i])
  }

  /** The weapon that an intent names gives its projectiles this lifetime. */
  predicate GivesLife(table: seq<EquippedWeapon>, intent: FireIntent, ttl: int)
  {
    var found := Lookup(table, intent.entity, intent.weapon);
    found.Some? && found.value.delivery.ProjectileDelivery? && found.value.delivery.ttlTicks == ttl
  }

  lemma {:induction false} FireAllSplit(env: Env, t: Tally, a: seq<FireIntent>, b: seq<FireIntent>)
    ensures FireAll(env, t, a + b) == FireAll(env, FireAll(env, t, a), b)
    decreases a
  {
    if a == [] {
      assert a + b == b;
    } else {
      assert (a + b)[0] == a[0] && (a + b)[1..] == a[1..] + b;
      FireAllSplit(env, FireOne(env, t, a[0]), a[1..], b);
    }
  }

  lemma NextFired(env: Env, start: Tally, intents: seq<FireIntent>, i: nat)
    requires i < |intents|
    ensures FiredUpTo(env, start, intents, i + 1) == FireOne(env, FiredUpTo(env, start, intents, i), intents[i])
  {
    assert intents[..i + 1] == intents[..i] + [intents[i]];
    FireAllSplit(env, start, intents[..i], [intents[i]]);
  }

  lemma {:induction false} ArmsAreKept(env: Env, start: Tally, intents: seq<FireIntent>, i: nat)
    requires i <= |intents|
    ensures SameArms(start.table, FiredUpTo(env, start, intents, i).table)
  {
    if i > 0 {
      ArmsAreKept(env, start, intents, i - 1);
      NextFired(env, start, intents, i - 1);
      var before := FiredUpTo(env, start, intents, i - 1);
      FireOneKeepsArms(env, before, intents[i - 1]);
      SameArmsInTurn(start.table, before.table, FiredUpTo(env, start, intents, i).table);
    }
  }

  /** A result of the fire phase was there at its start or was reported by one of its intents. */
  lemma {:induction false} ReportHasIntent(env: Env, start: Tally, intents: seq<FireIntent>, n: nat, r: CombatResult)
      returns (i: nat)
    requires n <= |intents| && r in FiredUpTo(env, start, intents, n).results && r !in start.results
    ensures i < n && ReportedBy(env, start, intents, i, r)
  {
    NextFired(env, start, intents, n - 1);
    FireOneAdds(env, FiredUpTo(env, start, intents, n - 1), intents[n - 1]);
    if r in FiredUpTo(env, start, intents, n - 1).results {
      i := ReportHasIntent(env, start, intents, n - 1, r);
    } else {
      i := n - 1;
    }
  }

  /** What is spawned stays spawned to the end of the phase. */
  lemma {:induction false} SpawnedStay(env: Env, t: Tally, intents: seq<FireIntent>)
    ensures forall p :: p in t.spawned ==> p in FireAll(env, t, intents).spawned
    decreases intents
  {
    if intents != [] {
      SpawnedStay(env, FireOne(env, t, intents[0]), intents[1..]);
    }
  }

  /** A reported spawn is the projectile that its intent launches, with the lifetime its weapon gives. */
  lemma SpawnIsLaunched(env: Env, t: Tally, intent: FireIntent, r: CombatResult) returns (p: Projectile)
    requires r in NewResults(env, t, intent) && r.ProjectileSpawned?
    ensures p in FireOne(env, t, intent).spawned && p.id == r.id && p.source == r.source == intent.entity
    ensures GivesLife(t.table, intent, p.ttlRemaining)
  {
    var w := Lookup(t.table, intent.entity, intent.weapon).value;
    var outcome := FireWeapon(w.definition, w.state).1;
    if outcome.WeaponFired? && !w.delivery.ProjectileDelivery? {
      VolleyResultsAreQuiet(Volley(env, t, intent, w.delivery).outcomes, intent.appliesStatus, intent.entity);
    }
    p := Launch(env, t, intent, w.delivery);
    assert p in t.spawned + [p];
  }

  lemma {:induction false} FlightResultsAreInFlight(events: seq<ProjectileEvent>)
    ensures forall r :: r in FlightResults(events) ==> r.InFlight?
  {
    if events != [] {
      FlightResultsAreInFlight(events[1..]);
    }
  }

  lemma {:induction false} FlightSpawnsNothing(env: Env, f: Flights, projectiles: seq<Projectile>)
    ensures forall r :: r in FlyAll(env, f, projectiles).results && r.ProjectileSpawned? ==> r in f.results
    decreases projectiles
  {
    if projectiles != [] {
      var p := projectiles[0];
      FlightResultsAreInFlight(Step(env.m, Excluding(env.scene, p.source), env.policy, f.vitals, p).events);
      FlightSpawnsNothing(env, FlyOne(env, f, p), projectiles[1..]);
    }
  }

  /** A reported spawn is in flight after its tick, with the lifetime of the weapon that its own intent fired. */
  lemma SpawnIsInFlight(s: Sim, input: TickInput, r: CombatResult) returns (i: nat, p: Projectile)
    requires r in TickOf(s, input).results && r.ProjectileSpawned?
    ensures SpawnOf(s, input, i, r, p.ttlRemaining)
    ensures p in After(s, input).state.projectiles && p.id == r.id && r.id >= s.state.nextProjectileId
  {
    var env, start, intents := input.env, StartOf(s.state, s.vitals, s.cursor), SortBy(input.intents, IntentLeq);
    var t := FirePhase(env, s.vitals, s.state, s.cursor, input.intents);
    FirePhaseSpawns(env, s.vitals, s.state, s.cursor, input.intents);
    FlightSpawnsNothing(env, Flights(t.vitals, [], t.results, t.knockbacks),
                        SortBy(s.state.projectiles, ProjectileLeq));
    ReloadsAreQuiet(TableOf(s.state));
    assert intents[..|intents|] == intents;
    i := ReportHasIntent(env, start, intents, |intents|, r);
    var before := FiredUpTo(env, start, intents, i);
    p := SpawnIsLaunched(env, before, intents[i], r);
    LaunchedStays(env, start, intents, i, p);
    LifeIsFromTheTable(env, s.state, start, intents, i, p.ttlRemaining);
    assert p in FlightPhase(env, t, s.state).alive + t.spawned;
  }

  lemma LaunchedStays(env: Env, start: Tally, intents: seq<FireIntent>, i: nat, p: Projectile)
    requires i < |intents| && p in FireOne(env, FiredUpTo(env, start, intents, i), intents[i]).spawned
    ensures p in FireAll(env, start, intents).spawned
  {
    NextFired(env, start, intents, i);
    assert intents == intents[..i + 1] + intents[i + 1..];
    FireAllSplit(env, start, intents[..i + 1], intents[i + 1..]);
    SpawnedStay(env, FiredUpTo(env, start, intents, i + 1), intents[i + 1..]);
  }

  lemma LifeIsFromTheTable(env: Env, state: TickState, start: Tally, intents: seq<FireIntent>, i: nat, ttl: int)
    requires start.table == CoolAll(TableOf(state)) && i < |intents|
    requires GivesLife(FiredUpTo(env, start, intents, i).table, intents[i], ttl)
    ensures GivesLife(TableOf(state), intents[i], ttl)
  {
    CoolingKeepsArms(TableOf(state));
    ArmsAreKept(env, start, intents, i);
    SameArmsInTurn(TableOf(state), start.table, FiredUpTo(env, start, intents, i).table);
    assert SameArmAt(TableOf(state), FiredUpTo(env, start, intents, i).table, intents[i].entity, intents[i].weapon);
  }

  /** `r` is reported by intent `i` of the tick, whose weapon gives its projectiles `ttl` ticks to live. */
  ghost predicate SpawnOf(s: Sim, input: TickInput, i: nat, r: CombatResult, ttl: int)
  {
    var intents := SortBy(input.intents, IntentLeq);
    && r.ProjectileSpawned? && ReportedBy(input.env, StartOf(s.state, s.vitals, s.cursor), intents, i, r)
    && intents[i].entity == r.source && GivesLife(TableOf(s.state), intents[i], ttl)
  }

  /**
   Every reported spawn is reported ended exactly once, and is gone, within max(1, ttlTicks) ticks
   after its own, where ttlTicks is the lifetime given by the weapon of the intent that reported it.
   */
  lemma SpawnEndsInTime(s: Sim, input: TickInput, r: CombatResult) returns (i: nat, ttl: int)
    requires Ordered(s.state) && r in TickOf(s, input).results && r.ProjectileSpawned?
    ensures SpawnOf(s, input, i, r, ttl)
    ensures forall later :: |later| >= MaxInt(1, ttl) ==> EndsOnce(s, input, later, r.id)
  {
    var p;
    i, p := SpawnIsInFlight(s, input, r);
    ttl := p.ttlRemaining;
    TickTracks(s, input);
    forall later: seq<TickInput> | |later| >= MaxInt(1, ttl) ensures EndsOnce(s, input, later, r.id) {
      ProjectileEndsInTime(After(s, input), later, p);
      NothingEndsAtItsSpawn(s, input, p);
      RunCons(s, input, later, p.id);
    }
  }

  ghost predicate EndsOnce(s: Sim, input: TickInput, later: seq<TickInput>, id: ProjectileId)
  {
    && Ends(Report(s, [input] + later), id) == 1
    && forall q :: q in Run(s, [input] + later).state.projectiles ==> q.id != id
  }

  lemma NothingEndsAtItsSpawn(s: Sim, input: TickInput, p: Projectile)
    requires Ordered(s.state) && p in After(s, input).state.projectiles && p.id >= s.state.nextProjectileId
    ensures Ends(TickOf(s, input).results, p.id) == 0
  {
    var after := After(s, input).state;
    TickTracks(s, input);
    FlyingOnce(after.projectiles, p);
    var i :| 0 <= i < |after.projectiles| && after.projectiles[i] == p;
    forall q | q in s.state.projectiles ensures q.id != p.id {
      var j :| 0 <= j < |s.state.projectiles| && s.state.projectiles[j] == q;
    }
    NoneFlying(s.state.projectiles, p.id);
    assert Spawns(TickOf(s, input).results, p.id) <= 1;
  }

  lemma RunCons(s: Sim, input: TickInput, later: seq<TickInput>, id: ProjectileId)
    ensures Run(s, [input] + later) == Run(After(s, input), later)
    ensures Ends(Report(s, [input] + later), id) ==
            Ends(TickOf(s, input).results, id) + Ends(Report(After(s, input), later), id)
  {
    assert ([input] + later)[1..] == later;
    CountsAppend(TickOf(s, input).results, Report(After(s, input), later), id);
  }
}
