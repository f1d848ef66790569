/**
 Whole ticks told from outside (packages/simulation/src/combat.ts and projectile.ts): what one step
 of a projectile does, a projectile flown by the ticks of a run, and a shot fired in a tick.
 */
module TickLaws {
  import opened Wrappers
  import opened Sorting
  import opened Geometry
  import opened Damage
  import opened World
  import opened Targeting
  import opened Delivery
  import opened DeliveryLaws
  import opened FlightLaws
  import opened PlanLaws
  import opened Impact
  import opened Projectiles
  import opened Weapon
  import opened Combat
  import opened CombatRuns
  import opened FireOrder
  import opened ShotLaws
  import Rng

  // ----- one step of a projectile -----

  /** Where the tick of a projectile ends. */
  function Ahead(p: Projectile): Vec2
  {
    Vec2(p.position.x + p.velocity.x, p.position.y + p.velocity.y)
  }

  /** The projectile one tick later. */
  ghost predicate FlownOn(m: Maths, p: Projectile, next: Projectile)
  {
    && next.position == Ahead(p) && next.ttlRemaining == p.ttlRemaining - 1
    && next.travelled == p.travelled + VecLength(m, p.velocity)
    && next.(position := p.position, ttlRemaining := p.ttlRemaining, travelled := p.travelled) == p
  }

  /** The nearest entity met is hit once, from where the tick began and after the whole way so far. */
  ghost predicate StrikesIn(m: Maths, scene: Scene, policy: Policy, vitals: Vitals, p: Projectile, s: StepResult)
  {
    exists hit, blow ::
      && NearestMet(m, scene, p.radius, p.position, Ahead(p), hit)
      && LandsOn(hit.(along := p.travelled + hit.along), p.position, p.damage, p.falloff, p.knockback, blow)
      && StruckStep(m, scene, policy, vitals, p, hit, blow, s)
  }

  ghost predicate StruckStep(m: Maths, scene: Scene, policy: Policy, vitals: Vitals, p: Projectile, hit: Struck,
                             blow: PlannedHit, s: StepResult)
  {
    var r := LandHit(Impulse(m), vitals, scene.teams, ProjectileSource(p), policy, blow);
    |r.outcomes| == 1
    && s == StepResult(None, r.vitals, [ProjectileDamage(r.outcomes[0]), ProjectileExpired(p.id, Hit, hit.position)],
                       r.knockbacks)
  }

  /**
   One step, case by case: geometry stops the body first, then the nearest entity met is hit, then age
   ends the flight, and otherwise the projectile flies on unchanged but for place, age and way.
   */
  lemma StepIsExact(m: Maths, scene: Scene, policy: Policy, vitals: Vitals, p: Projectile)
    requires Lawful(m) && Faithful(scene)
    ensures var s, to := Step(m, scene, policy, vitals, p), Ahead(p);
            if Blocked(scene.blockers, p.position, to, p.radius) then
              s == StepResult(None, vitals, [ProjectileExpired(p.id, Stopped, to)], [])
            else if SomebodyNear(m, scene, p.radius, p.position, to) then
              StrikesIn(m, scene, policy, vitals, p, s)
            else if p.ttlRemaining <= 1 then
              s == StepResult(None, vitals, [ProjectileMoved(p.id, to), ProjectileExpired(p.id, Ttl, to)], [])
            else
              s.alive.Some? && FlownOn(m, p, s.alive.value)
              && s == StepResult(s.alive, vitals, [ProjectileMoved(p.id, to)], [])
  {
    var to := AddVec(p.position, p.velocity);
    var found := SweptHit(m, scene, p.radius, p.position, to, p.travelled);
    SweptHitIsNearestMet(m, scene, p.radius, p.position, to, p.travelled);
    assert to == Ahead(p);
    if found.Some? && !Blocked(scene.blockers, p.position, to, p.radius) {
      StepStrikes(m, scene, policy, vitals, p, found.value);
    }
  }

  lemma StepStrikes(m: Maths, scene: Scene, policy: Policy, vitals: Vitals, p: Projectile, found: Struck)
    requires !Blocked(scene.blockers, p.position, Ahead(p), p.radius)
    requires SweptHit(m, scene, p.radius, p.position, AddVec(p.position, p.velocity), p.travelled) == Some(found)
    requires NearestMet(m, scene, p.radius, p.position, Ahead(p), found.(along := found.along - p.travelled))
    ensures StrikesIn(m, scene, policy, vitals, p, Step(m, scene, policy, vitals, p))
  {
    var hit, blow := found.(along := found.along - p.travelled), StrikeOf(p, found);
    assert hit.(along := p.travelled + hit.along) == found;
    HitLands(found, p.position, p.damage, p.falloff, p.knockback);
    assert StruckStep(m, scene, policy, vitals, p, hit, blow, Step(m, scene, policy, vitals, p));
  }

  // ----- all flights of a tick -----

  /** Each projectile is stepped once, in turn, on the health the ones before it left. */
  ghost predicate SteppedInTurn(env: Env, vitals: Vitals, projectiles: seq<Projectile>, steps: seq<StepResult>)
    decreases projectiles
  {
    && |steps| == |projectiles|
    && (projectiles != [] ==>
          && steps[0] == Step(env.m, Excluding(env.scene, projectiles[0].source), env.policy, vitals, projectiles[0])
          && SteppedInTurn(env, steps[0].vitals, projectiles[1..], steps[1..]))
  }

  function LeftBy(vitals: Vitals, steps: seq<StepResult>): Vitals
  {
    if steps == [] then vitals else steps[|steps| - 1].vitals
  }

  function Survivors(steps: seq<StepResult>): seq<Projectile>
  {
    if steps == [] then []
    else (if steps[0].alive.Some? then [steps[0].alive.value] else []) + Survivors(steps[1..])
  }

  function EventsOf(steps: seq<StepResult>): seq<CombatResult>
  {
    if steps == [] then [] else FlightResults(steps[0].events) + EventsOf(steps[1..])
  }

  function PushesIn(steps: seq<StepResult>): seq<Knockback>
  {
    if steps == [] then [] else steps[0].knockbacks + PushesIn(steps[1..])
  }

  /** Some flights and then the steps of more. */
  function WithSteps(f: Flights, steps: seq<StepResult>): Flights
  {
    Flights(LeftBy(f.vitals, steps), f.alive + Survivors(steps), f.results + EventsOf(steps),
            f.knockbacks + PushesIn(steps))
  }

  lemma WithOneMore(f: Flights, step: StepResult, rest: seq<StepResult>)
    ensures WithSteps(f, [step] + rest) == WithSteps(Continue(f, step), rest)
  {
    var survivor := if step.alive.Some? then [step.alive.value] else [];
    assert ([step] + rest)[1..] == rest;
    Regroup(f.alive, survivor, Survivors(rest));
    Regroup(f.results, FlightResults(step.events), EventsOf(rest));
    Regroup(f.knockbacks, step.knockbacks, PushesIn(rest));
    assert rest == [] ==> [step] + rest == [step];
  }

  lemma {:induction false} FlyAllSteps(env: Env, f: Flights, projectiles: seq<Projectile>)
      returns (steps: seq<StepResult>)
    ensures SteppedInTurn(env, f.vitals, projectiles, steps) && FlyAll(env, f, projectiles) == WithSteps(f, steps)
    decreases projectiles
  {
    steps := [];
    if projectiles != [] {
      var p := projectiles[0];
      var step := Step(env.m, Excluding(env.scene, p.source), env.policy, f.vitals, p);
      var rest := FlyAllSteps(env, Continue(f, step), projectiles[1..]);
      WithOneMore(f, step, rest);
      steps := [step] + rest;
    }
  }

  /**
   A tick steps each projectile that was in flight exactly once, by id, after all intents, and never
   one spawned in this tick; survivors, events and impulses are those of the steps, in order.
   */
  lemma TickStepsEach(s: Sim, input: TickInput) returns (ordered: seq<Projectile>, steps: seq<StepResult>)
    ensures multiset(ordered) == multiset(s.state.projectiles)
    ensures forall i, j :: 0 <= i < j < |ordered| ==> ordered[i].id <= ordered[j].id
    ensures var t := FirePhase(input.env, s.vitals, s.state, s.cursor, input.intents);
            var r, f := TickOf(s, input), WithSteps(Flights(t.vitals, [], t.results, t.knockbacks), steps);
            && SteppedInTurn(input.env, t.vitals, ordered, steps)
            && r.vitals == f.vitals && r.results == f.results && r.knockbacks == f.knockbacks
            && r.state.projectiles == f.alive + t.spawned && r.state.nextProjectileId == t.nextId
            && r.cursor == t.cursor
  {
    var t := FirePhase(input.env, s.vitals, s.state, s.cursor, input.intents);
    ordered := SortBy(s.state.projectiles, ProjectileLeq);
    SortMultiset(s.state.projectiles, ProjectileLeq);
    SortSorted(s.state.projectiles, ProjectileLeq);
    forall i, j | 0 <= i < j < |ordered| ensures ordered[i].id <= ordered[j].id {
      assert ProjectileLeq(ordered[i], ordered[j]);
    }
    steps := FlyAllSteps(input.env, Flights(t.vitals, [], t.results, t.knockbacks), ordered);
  }

  // ----- a projectile flown by a run -----

  /** `n` ticks over one unchanging world in which nobody pulls a trigger. */
  function Quiet(env: Env, n: nat): seq<TickInput>
  {
    if n == 0 then [] else [TickInput(env, [])] + Quiet(env, n - 1)
  }

  /** The impulses of a run, in order. */
  ghost function Pushed(s: Sim, inputs: seq<TickInput>): seq<Knockback>
    decreases inputs
  {
    if inputs == [] then [] else TickOf(s, inputs[0]).knockbacks + Pushed(After(s, inputs[0]), inputs[1..])
  }

  /** What a run does to health, what damage it reports and whom it pushes. */
  ghost function EffectOf(s: Sim, inputs: seq<TickInput>): Resolution
  {
    Resolution(Run(s, inputs).vitals, DamageIn(Report(s, inputs)), Pushed(s, inputs))
  }

  lemma EffectOfFirst(s: Sim, inputs: seq<TickInput>)
    requires inputs != []
    ensures var r := TickOf(s, inputs[0]);
            EffectOf(s, inputs) == Join(Resolution(r.vitals, DamageIn(r.results), r.knockbacks),
                                        EffectOf(After(s, inputs[0]), inputs[1..]))
  {
    DamageInAppend(TickOf(s, inputs[0]).results, Report(After(s, inputs[0]), inputs[1..]));
  }

  /** A tick without intents only steps what flies. */
  lemma QuietTick(s: Sim, env: Env)
    ensures var r, start := TickOf(s, TickInput(env, [])), StartOf(s.state, s.vitals, s.cursor);
            var f := FlyAll(env, Flights(s.vitals, [], start.results, []), SortBy(s.state.projectiles, ProjectileLeq));
            && r.vitals == f.vitals && r.state.projectiles == f.alive && r.knockbacks == f.knockbacks
            && r.results == f.results
  {
    var start := StartOf(s.state, s.vitals, s.cursor);
    assert FirePhase(env, s.vitals, s.state, s.cursor, []) == start;
    assert TickOf(s, TickInput(env, [])).state.projectiles ==
           FlightPhase(env, start, s.state).alive + [];
  }

  lemma EmptyQuietTick(s: Sim, env: Env)
    requires s.state.projectiles == []
    ensures var r := TickOf(s, TickInput(env, []));
            r.vitals == s.vitals && r.state.projectiles == [] && r.knockbacks == [] && DamageIn(r.results) == []
  {
    QuietTick(s, env);
    NoDamageInReloads(TableOf(s.state));
  }

  lemma LoneQuietTick(s: Sim, env: Env, p: Projectile)
    requires s.state.projectiles == [p]
    ensures var r := TickOf(s, TickInput(env, []));
            var step := Step(env.m, Excluding(env.scene, p.source), env.policy, s.vitals, p);
            && r.vitals == step.vitals && r.knockbacks == step.knockbacks
            && DamageIn(r.results) == OutcomesOf(step.events)
            && r.state.projectiles == if step.alive.Some? then [step.alive.value] else []
  {
    var step := Step(env.m, Excluding(env.scene, p.source), env.policy, s.vitals, p);
    var reloads := Reloads(TableOf(s.state));
    var start := Flights(s.vitals, [], reloads, []);
    QuietTick(s, env);
    assert SortBy([p], ProjectileLeq) == [p];
    assert FlyAll(env, start, [p]) == FlyAll(env, FlyOne(env, start, p), [p][1..]);
    NoDamageInReloads(TableOf(s.state));
    DamageInAppend(reloads, FlightResults(step.events));
    DamageInFlight(step.events);
  }

  /** `n` quiet ticks have this effect and leave nothing in flight. */
  ghost predicate EndsWith(s: Sim, env: Env, n: nat, r: Resolution)
  {
    EffectOf(s, Quiet(env, n)) == r && Run(s, Quiet(env, n)).state.projectiles == []
  }

  lemma EndsNow(s: Sim, env: Env)
    requires s.state.projectiles == []
    ensures EndsWith(s, env, 0, Resolution(s.vitals, [], []))
  {
  }

  lemma EndsLater(s: Sim, env: Env, n: nat, r: Resolution)
    requires n > 0 && EndsWith(After(s, TickInput(env, [])), env, n - 1, r)
    ensures var t := TickOf(s, TickInput(env, []));
            EndsWith(s, env, n, Join(Resolution(t.vitals, DamageIn(t.results), t.knockbacks), r))
  {
    EffectOfFirst(s, Quiet(env, n));
  }

  lemma QuietOnce(s: Sim, env: Env, n: nat) returns (next: Sim)
    requires s.state.projectiles == [] && n > 0
    ensures next.state.projectiles == []
    ensures EndsWith(next, env, n - 1, Resolution(next.vitals, [], [])) ==>
              EndsWith(s, env, n, Resolution(s.vitals, [], []))
  {
    next := After(s, TickInput(env, []));
    EmptyQuietTick(s, env);
    if EndsWith(next, env, n - 1, Resolution(next.vitals, [], [])) {
      EndsLater(s, env, n, Resolution(s.vitals, [], []));
    }
  }

  lemma {:induction false} NothingLeft(s: Sim, env: Env, n: nat)
    requires s.state.projectiles == []
    ensures EndsWith(s, env, n, Resolution(s.vitals, [], []))
    decreases n
  {
    if n == 0 {
      EndsNow(s, env);
    } else {
      var next := QuietOnce(s, env, n);
      NothingLeft(next, env, n - 1);
    }
  }

  /** What one step leaves behind. */
  function StepEffect(step: StepResult): Resolution
  {
    Resolution(step.vitals, OutcomesOf(step.events), step.knockbacks)
  }

  lemma LoneRunFirst(s: Sim, env: Env, p: Projectile, n: nat, rest: Resolution)
    requires s.state.projectiles == [p] && n >= 1
    requires EndsWith(After(s, TickInput(env, [])), env, n - 1, rest)
    ensures EndsWith(s, env, n,
                     Join(StepEffect(Step(env.m, Excluding(env.scene, p.source), env.policy, s.vitals, p)), rest))
  {
    LoneQuietTick(s, env, p);
    EndsLater(s, env, n, rest);
  }

  lemma SteppingFirst(m: Maths, scene: Scene, policy: Policy, vitals: Vitals, p: Projectile)
    ensures var step := Step(m, scene, policy, vitals, p);
            && (step.alive.None? ==> Stepping(m, scene, policy, vitals, p) == StepEffect(step))
            && (step.alive.Some? ==>
                  && step.alive.value.ttlRemaining == p.ttlRemaining - 1 >= 1 && step.alive.value.source == p.source
                  && Stepping(m, scene, policy, vitals, p) ==
                     Join(StepEffect(step), Stepping(m, scene, policy, step.vitals, step.alive.value)))
  {
  }

  /** The rest of a flight over the scene without its source. */
  ghost function FlightOut(env: Env, vitals: Vitals, p: Projectile): Resolution
  {
    Stepping(env.m, Excluding(env.scene, p.source), env.policy, vitals, p)
  }

  ghost function StepOut(env: Env, vitals: Vitals, p: Projectile): StepResult
  {
    Step(env.m, Excluding(env.scene, p.source), env.policy, vitals, p)
  }

  /** Running `n` quiet ticks does what flying the projectile out does. */
  ghost function RunsAsFlight(env: Env): (Sim, Projectile, nat) -> bool
  {
    (s: Sim, p: Projectile, n: nat) => EndsWith(s, env, n, FlightOut(env, s.vitals, p))
  }

  lemma RunsIs(env: Env, s: Sim, p: Projectile, n: nat)
    ensures RunsAsFlight(env)(s, p, n) == EndsWith(s, env, n, FlightOut(env, s.vitals, p))
  {
  }

  lemma LastTick(s: Sim, env: Env, p: Projectile, n: nat, flies: (Sim, Projectile, nat) -> bool) returns (next: Sim)
    requires s.state.projectiles == [p] && n >= 1 && flies == RunsAsFlight(env)
    requires StepOut(env, s.vitals, p).alive.None?
    ensures next.state.projectiles == []
    ensures EndsWith(next, env, n - 1, Resolution(next.vitals, [], [])) ==> flies(s, p, n)
  {
    var step := StepOut(env, s.vitals, p);
    next := After(s, TickInput(env, []));
    LoneQuietTick(s, env, p);
    JoinsNothing(StepEffect(step));
    SteppingFirst(env.m, Excluding(env.scene, p.source), env.policy, s.vitals, p);
    if EndsWith(next, env, n - 1, Resolution(next.vitals, [], [])) {
      LoneRunFirst(s, env, p, n, Resolution(next.vitals, [], []));
      RunsIs(env, s, p, n);
    }
  }

  lemma NextFacts(s: Sim, env: Env, p: Projectile, q: Projectile) returns (next: Sim)
    requires s.state.projectiles == [p] && StepOut(env, s.vitals, p).alive == Some(q)
    ensures next == After(s, TickInput(env, []))
    ensures q.ttlRemaining == p.ttlRemaining - 1 >= 1 && next.state.projectiles == [q]
    ensures FlightOut(env, s.vitals, p) == Join(StepEffect(StepOut(env, s.vitals, p)), FlightOut(env, next.vitals, q))
  {
    next := After(s, TickInput(env, []));
    LoneQuietTick(s, env, p);
    SteppingFirst(env.m, Excluding(env.scene, p.source), env.policy, s.vitals, p);
  }

  /** If the rest of a flight is run as `rest`, the whole of it is run as its first step and `rest`. */
  lemma FliesWhole(s: Sim, env: Env, p: Projectile, n: nat, next: Sim, rest: Resolution,
                   flies: (Sim, Projectile, nat) -> bool)
    requires s.state.projectiles == [p] && n >= 1 && flies == RunsAsFlight(env)
    requires next == After(s, TickInput(env, [])) && EndsWith(next, env, n - 1, rest)
    requires FlightOut(env, s.vitals, p) == Join(StepEffect(StepOut(env, s.vitals, p)), rest)
    ensures flies(s, p, n)
  {
    LoneRunFirst(s, env, p, n, rest);
    RunsIs(env, s, p, n);
  }

  lemma NextTick(s: Sim, env: Env, p: Projectile, n: nat, q: Projectile, flies: (Sim, Projectile, nat) -> bool)
      returns (next: Sim)
    requires s.state.projectiles == [p] && n >= 1 && flies == RunsAsFlight(env)
    requires StepOut(env, s.vitals, p).alive == Some(q)
    ensures q.ttlRemaining == p.ttlRemaining - 1 >= 1 && next.state.projectiles == [q]
    ensures flies(next, q, n - 1) ==> flies(s, p, n)
  {
    next := NextFacts(s, env, p, q);
    if flies(next, q, n - 1) {
      RunsIs(env, next, q, n - 1);
      FliesWhole(s, env, p, n, next, FlightOut(env, next.vitals, q), flies);
    }
  }

  /** Either the tick ends the flight, or the rest of the flight decides. */
  lemma FlightCase(s: Sim, env: Env, p: Projectile, n: nat, flies: (Sim, Projectile, nat) -> bool)
      returns (q: Option<Projectile>, next: Sim)
    requires s.state.projectiles == [p] && n >= 1 && flies == RunsAsFlight(env)
    ensures q.None? ==> flies(s, p, n)
    ensures q.Some? ==>
              && q.value.ttlRemaining == p.ttlRemaining - 1 >= 1 && next.state.projectiles == [q.value]
              && (flies(next, q.value, n - 1) ==> flies(s, p, n))
  {
    q, next := StepOut(env, s.vitals, p).alive, s;
    if q.None? {
      next := LastTick(s, env, p, n, flies);
      NothingLeft(next, env, n - 1);
    } else {
      next := NextTick(s, env, p, n, q.value, flies);
    }
  }

  /** `flies` holds of a flight, or would if it held of the same flight one tick later. */
  ghost predicate Splits(flies: (Sim, Projectile, nat) -> bool, s: Sim, p: Projectile, n: nat)
  {
    s.state.projectiles == [p] && n >= 1 ==>
      || flies(s, p, n)
      || exists q: Projectile, next: Sim ::
           && q.ttlRemaining == p.ttlRemaining - 1 >= 1 && next.state.projectiles == [q]
           && (flies(next, q, n - 1) ==> flies(s, p, n))
  }

  lemma {:induction false} ByFlight(flies: (Sim, Projectile, nat) -> bool, s: Sim, p: Projectile, n: nat)
    requires forall s, p, n :: Splits(flies, s, p, n)
    requires s.state.projectiles == [p] && n >= 1 && n >= p.ttlRemaining
    ensures flies(s, p, n)
    decreases n
  {
    assert Splits(flies, s, p, n);
    if !flies(s, p, n) {
      var q: Projectile, next: Sim :|
        && q.ttlRemaining == p.ttlRemaining - 1 >= 1 && next.state.projectiles == [q]
        && (flies(next, q, n - 1) ==> flies(s, p, n));
      ByFlight(flies, next, q, n - 1);
    }
  }

  lemma SplitsIf(flies: (Sim, Projectile, nat) -> bool, s: Sim, p: Projectile, n: nat, q: Option<Projectile>, next: Sim)
    requires q.None? ==> flies(s, p, n)
    requires q.Some? ==>
               && q.value.ttlRemaining == p.ttlRemaining - 1 >= 1 && next.state.projectiles == [q.value] && n >= 1
               && (flies(next, q.value, n - 1) ==> flies(s, p, n))
    ensures Splits(flies, s, p, n)
  {
  }

  lemma RunSplits(env: Env, s: Sim, p: Projectile, n: nat, flies: (Sim, Projectile, nat) -> bool)
    requires flies == RunsAsFlight(env)
    ensures Splits(flies, s, p, n)
  {
    if s.state.projectiles == [p] && n >= 1 {
      var q, next := FlightCase(s, env, p, n, flies);
      SplitsIf(flies, s, p, n, q, next);
    }
  }

  /**
   A projectile alone in flight, flown by the ticks of a run over a world that stands still, does
   exactly what stepping it out does over the scene without its source, and is gone in time.
   */
  lemma RunFliesTheProjectile(s: Sim, env: Env, p: Projectile, n: nat)
    requires s.state.projectiles == [p] && n >= 1 && n >= p.ttlRemaining
    ensures EndsWith(s, env, n, FlightOut(env, s.vitals, p))
  {
    var flies := RunsAsFlight(env);
    forall r, q, k ensures Splits(flies, r, q, k) {
      RunSplits(env, r, q, k, flies);
    }
    ByFlight(flies, s, p, n);
    RunsIs(env, s, p, n);
  }

  lemma JoinsNothing(r: Resolution)
    ensures Join(r, Resolution(r.vitals, [], [])) == r
  {
  }

  // ----- a shot fired in a tick -----

  /** A tick with one intent and nothing in flight does what the intent does after the timers ran. */
  lemma LoneIntentTick(s: Sim, env: Env, intent: FireIntent)
    requires s.state.projectiles == []
    ensures var r := TickOf(s, TickInput(env, [intent]));
            var t := FireOne(env, StartOf(s.state, s.vitals, s.cursor), intent);
            && r.vitals == t.vitals && r.knockbacks == t.knockbacks && r.results == t.results && r.cursor == t.cursor
            && r.state.projectiles == t.spawned && r.state.nextProjectileId == t.nextId
  {
    var start := StartOf(s.state, s.vitals, s.cursor);
    assert SortBy([intent], IntentLeq) == [intent];
    assert FireAll(env, start, [intent]) == FireAll(env, FireOne(env, start, intent), [intent][1..]);
    assert FirePhase(env, s.vitals, s.state, s.cursor, [intent]) == FireOne(env, start, intent);
    assert SortBy(s.state.projectiles, ProjectileLeq) == [];
    assert [] + FireOne(env, start, intent).spawned == FireOne(env, start, intent).spawned;
  }

  /** The ray of a hitscan or beam shot. */
  function ShotRay(d: DamageDelivery, at: Vec2, aim: Vec2): Probe
    requires d.HitscanDelivery? || d.BeamDelivery?
  {
    Ray(at, aim, d.range, d.hitRadius)
  }

  lemma NearestIsUnique(m: Maths, scene: Scene, origin: Vec2, probe: Probe, s: Struck, t: Struck)
    requires NearestClear(m, scene, origin, probe, s) && NearestClear(m, scene, origin, probe, t)
    ensures s == t
  {
    assert NotAfter(s, t) && NotAfter(t, s);
  }

  /** Where somebody is in sight the plan of a ray is not empty. */
  lemma SightedIsHit(m: Maths, scene: Scene, shot: Shot, damage: real, range: real, hitRadius: real,
                     falloff: Falloff, knockback: real, plan: seq<PlannedHit>, s: Struck)
    requires RayPlan(m, scene, shot, damage, range, hitRadius, falloff, knockback, plan)
    requires Reaches(m, scene, Ray(shot.origin, shot.aim, range, hitRadius), s) && Clear(scene, shot.origin, s)
    ensures |plan| == 1
  {
  }

  lemma PlannedVictim(m: Maths, scene: Scene, shot: Shot, damage: real, range: real, hitRadius: real,
                      falloff: Falloff, knockback: real, plan: seq<PlannedHit>) returns (t: Struck)
    requires RayPlan(m, scene, shot, damage, range, hitRadius, falloff, knockback, plan) && |plan| == 1
    ensures NearestClear(m, scene, shot.origin, Ray(shot.origin, shot.aim, range, hitRadius), t)
    ensures LandsOn(t, shot.origin, damage, falloff, knockback, plan[0])
  {
    t :| NearestClear(m, scene, shot.origin, Ray(shot.origin, shot.aim, range, hitRadius), t)
         && LandsOn(t, shot.origin, damage, falloff, knockback, plan[0]);
  }

  /** The plan of a ray is one hit on the nearest entity in sight. */
  lemma RayPlanIsTheHit(m: Maths, scene: Scene, shot: Shot, damage: real, range: real, hitRadius: real,
                        falloff: Falloff, knockback: real, plan: seq<PlannedHit>, s: Struck)
    requires RayPlan(m, scene, shot, damage, range, hitRadius, falloff, knockback, plan)
    requires NearestClear(m, scene, shot.origin, Ray(shot.origin, shot.aim, range, hitRadius), s)
    ensures |plan| == 1 && LandsOn(s, shot.origin, damage, falloff, knockback, plan[0])
  {
    SightedIsHit(m, scene, shot, damage, range, hitRadius, falloff, knockback, plan, s);
    var t := PlannedVictim(m, scene, shot, damage, range, hitRadius, falloff, knockback, plan);
    NearestIsUnique(m, scene, shot.origin, Ray(shot.origin, shot.aim, range, hitRadius), s, t);
  }

  /** The pool after it was asked for an amount. */
  function Wounded(h: Health, amount: real): Health
  {
    Health(h.current - Min(Max(amount, 0.0), h.current), h.max)
  }

  /** The victim is the nearest entity that a ready hitscan or beam weapon meets in sight, and may be hurt. */
  ghost predicate AimedAt(env: Env, t: Tally, intent: FireIntent, at: Vec2, victim: Struck)
  {
    && ReadyFor(t, intent) && StartsAt(env.scene, intent, at)
    && (WeaponOf(t, intent).delivery.HitscanDelivery? || WeaponOf(t, intent).delivery.BeamDelivery?)
    && NearestClear(env.m, Excluding(env.scene, intent.entity), at,
                    ShotRay(WeaponOf(t, intent).delivery, at, intent.aim), victim)
    && victim.entity in t.vitals && t.vitals[victim.entity].InPool()
    && Allowed(env.scene.teams, Shooter(env.scene, intent.entity), env.policy, victim.entity)
  }

  /** What the weapon deals to the victim. */
  function DamageTo(d: DamageDelivery, victim: Struck): real
    requires d.HitscanDelivery? || d.BeamDelivery?
  {
    Dealt(d.damage, d.falloff, victim.along)
  }

  /** One entity alone was hurt, by an amount asked of it. */
  ghost predicate Hurts(before: Vitals, after: Vitals, entity: EntityId, dealt: real)
  {
    entity in before && after == before[entity := Wounded(before[entity], dealt)]
  }

  lemma LandedHurts(push: PlannedHit -> Knockback, vitals: Vitals, teams: map<EntityId, TeamId>, source: DamageSource,
                    policy: Policy, plan: seq<PlannedHit>, entity: EntityId, dealt: real)
    requires |plan| == 1 && plan[0].target == entity && plan[0].amount == dealt
    requires entity in vitals && vitals[entity].InPool() && Allowed(teams, source, policy, entity)
    ensures Hurts(vitals, ApplyHits(push, vitals, teams, source, policy, plan).vitals, entity, dealt)
  {
    assert plan == [plan[0]];
    ApplyOneHit(push, vitals, teams, source, policy, plan[0]);
    WoundIs(vitals, teams, plan[0], source, policy);
  }

  lemma ShotWounds(env: Env, t: Tally, intent: FireIntent, at: Vec2, victim: Struck)
    requires Lawful(env.m) && Faithful(env.scene) && AimedAt(env, t, intent, at, victim)
    ensures Hurts(t.vitals, FireOne(env, t, intent).vitals, victim.entity,
                  DamageTo(WeaponOf(t, intent).delivery, victim))
  {
    var from, plan, r, news := ShotLands(env, t, intent);
    var d := WeaponOf(t, intent).delivery;
    AimedPlan(env.m, Excluding(env.scene, intent.entity), d, Shot(at, intent.aim, intent.heldTicks), env.draws,
              t.cursor, plan, victim);
    LandedHurts(Impulse(env.m), t.vitals, env.scene.teams, Shooter(env.scene, intent.entity), env.policy, plan,
                victim.entity, DamageTo(d, victim));
  }

  lemma AimedPlan(m: Maths, scene: Scene, d: DamageDelivery, shot: Shot, draws: Rng.Draws, cursor: nat,
                  plan: seq<PlannedHit>, victim: Struck)
    requires (d.HitscanDelivery? || d.BeamDelivery?) && PlanLaw(m, scene, d, shot, draws, cursor, plan)
    requires NearestClear(m, scene, shot.origin, ShotRay(d, shot.origin, shot.aim), victim)
    ensures |plan| == 1 && plan[0].target == victim.entity && plan[0].amount == DamageTo(d, victim)
  {
    RayPlanIsTheHit(m, scene, shot, d.damage, d.range, d.hitRadius, d.falloff, d.knockback, plan, victim);
  }

  /**
   The whole way from a trigger to a wound: in a tick in which a ready hitscan or beam weapon is fired
   at somebody in reach and in sight whom the shooter may hurt, the nearest such entity loses the
   lesser of the weapon's damage at that distance and what it had, and nobody else is hurt.
   */
  lemma NearestIsWounded(s: Sim, env: Env, intent: FireIntent, at: Vec2, victim: Struck)
    requires Lawful(env.m) && Faithful(env.scene) && s.state.projectiles == []
    requires AimedAt(env, StartOf(s.state, s.vitals, s.cursor), intent, at, victim)
    ensures Hurts(s.vitals, TickOf(s, TickInput(env, [intent])).vitals, victim.entity,
                  DamageTo(WeaponOf(StartOf(s.state, s.vitals, s.cursor), intent).delivery, victim))
  {
    LoneIntentTick(s, env, intent);
    ShotWounds(env, StartOf(s.state, s.vitals, s.cursor), intent, at, victim);
  }

  lemma WoundIs(vitals: Vitals, teams: map<EntityId, TeamId>, hit: PlannedHit, source: DamageSource, policy: Policy)
    requires hit.target in vitals && vitals[hit.target].InPool() && Allowed(teams, source, policy, hit.target)
    ensures var h := vitals[hit.target];
            HitEntity(vitals, teams, hit.target, hit.amount, source, policy).0 ==
            vitals[hit.target := Wounded(h, hit.amount)]
  {
    HitTakes(vitals, teams, hit.target, hit.amount, source, policy);
    assert vitals == vitals[hit.target := vitals[hit.target]];
  }
}
