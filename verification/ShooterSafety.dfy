/** Owner exclusion over whole runs: nobody is hurt by their own shots (packages/simulation/src/combat.ts). */
module ShooterSafety {
  import opened Wrappers
  import opened Sorting
  import opened Geometry
  import opened Damage
  import opened World
  import opened Targeting
  import opened Delivery
  import opened Impact
  import opened Projectiles
  import opened Weapon
  import opened Combat
  import opened CombatRuns

  /** `entity` comes through unhurt: same pool, and in none of the outcomes. */
  ghost predicate Unhurt(before: Vitals, after: Vitals, outcomes: seq<DamageOutcome>, entity: EntityId)
  {
    && (entity in before <==> entity in after)
    && (entity in before ==> after[entity] == before[entity])
    && forall o :: o in outcomes ==> o.target != entity
  }

  lemma VolleySparesWielder(env: Env, t: Tally, intent: FireIntent, delivery: DamageDelivery)
    requires Lawful(env.m) && Faithful(env.scene)
    ensures var r := Volley(env, t, intent, delivery);
            Unhurt(t.vitals, r.vitals, r.outcomes, intent.entity)
  {
    var scene := Excluding(env.scene, intent.entity);
    var shot := Shot(OriginOf(env.scene, intent), intent.aim, intent.heldTicks);
    ExcludingIsFaithful(env.scene, intent.entity);
    PlanTargetsEntities(env.m, scene, delivery, shot, env.draws, t.cursor);
    UntargetedIsUntouched(Impulse(env.m), t.vitals, env.scene.teams, SourceOf(env.scene, intent.entity), env.policy,
                          Plan(env.m, scene, delivery, shot, env.draws, t.cursor), intent.entity);
  }

  /** No shot hurts its own wielder. */
  lemma ShotSparesWielder(env: Env, t: Tally, intent: FireIntent)
    requires Lawful(env.m) && Faithful(env.scene)
    ensures Unhurt(t.vitals, FireOne(env, t, intent).vitals, DamageIn(NewResults(env, t, intent)), intent.entity)
  {
    var found := Lookup(t.table, intent.entity, intent.weapon);
    if found.Some? {
      var w := found.value;
      var outcome := FireWeapon(w.definition, w.state).1;
      DamageInOne(Fired(outcome));
      if outcome.WeaponFired? {
        if w.delivery.ProjectileDelivery? {
          var p := Launch(env, t, intent, w.delivery);
          var spawned := ProjectileSpawned(p.id, p.source, p.position, p.velocity);
          DamageInOne(spawned);
          DamageInAppend([Fired(outcome)], [spawned]);
        } else {
          VolleySparesWielder(env, t, intent, w.delivery);
          var outcomes := Volley(env, t, intent, w.delivery).outcomes;
          var d, s := DamageResults(outcomes), Statuses(outcomes, intent.appliesStatus, intent.entity);
          DamageInAppend([Fired(outcome)], d + s);
          DamageInAppend(d, s);
          DamageInOutcomes(outcomes);
          NoDamageInStatuses(outcomes, intent.appliesStatus, intent.entity);
          assert DamageIn([Fired(outcome)] + (d + s)) == outcomes;
        }
      }
    }
  }

  /** No projectile hurts the entity that fired it. */
  lemma FlightSparesSource(env: Env, vitals: Vitals, p: Projectile)
    requires Lawful(env.m) && Faithful(env.scene)
    ensures var s := Step(env.m, Excluding(env.scene, p.source), env.policy, vitals, p);
            && Unhurt(vitals, s.vitals, OutcomesOf(s.events), p.source)
            && (s.alive.Some? ==> s.alive.value.source == p.source)
  {
    var scene := Excluding(env.scene, p.source);
    ExcludingIsFaithful(env.scene, p.source);
    StepTargets(env.m, scene, p);
    var move := MoveOf(env.m, scene.blockers, SweepIn(env.m, scene, p.radius), p);
    PlayOutcomes(Impulse(env.m), scene.teams, env.policy, vitals, p, move);
    if move.Strike? {
      var blow := StrikeOf(p, move.hit);
      HitIsAccounted(vitals, scene.teams, blow.target, blow.amount, ProjectileSource(p), env.policy);
    }
  }

  ghost predicate AllFrom(projectiles: seq<Projectile>, entity: EntityId)
  {
    forall p :: p in projectiles ==> p.source == entity
  }

  lemma {:induction false} FireAllSpares(env: Env, start: Vitals, t: Tally, intents: seq<FireIntent>, entity: EntityId)
    requires Lawful(env.m) && Faithful(env.scene)
    requires forall i :: i in intents ==> i.entity == entity
    requires Unhurt(start, t.vitals, DamageIn(t.results), entity) && AllFrom(t.spawned, entity)
    ensures var end := FireAll(env, t, intents);
            Unhurt(start, end.vitals, DamageIn(end.results), entity) && AllFrom(end.spawned, entity)
    decreases intents
  {
    if intents != [] {
      assert intents[0] in intents;
      ShotSparesWielder(env, t, intents[0]);
      FireOneAdds(env, t, intents[0]);
      DamageInAppend(t.results, NewResults(env, t, intents[0]));
      FireAllSpares(env, start, FireOne(env, t, intents[0]), intents[1..], entity);
    }
  }

  lemma {:induction false} FlyAllSpares(env: Env, start: Vitals, f: Flights, projectiles: seq<Projectile>,
                                        entity: EntityId)
    requires Lawful(env.m) && Faithful(env.scene)
    requires AllFrom(projectiles, entity) && AllFrom(f.alive, entity)
    requires Unhurt(start, f.vitals, DamageIn(f.results), entity)
    ensures var end := FlyAll(env, f, projectiles);
            Unhurt(start, end.vitals, DamageIn(end.results), entity) && AllFrom(end.alive, entity)
    decreases projectiles
  {
    if projectiles != [] {
      var p := projectiles[0];
      var s := Step(env.m, Excluding(env.scene, p.source), env.policy, f.vitals, p);
      assert p in projectiles;
      FlightSparesSource(env, f.vitals, p);
      DamageInFlight(s.events);
      DamageInAppend(f.results, FlightResults(s.events));
      FlyAllSpares(env, start, FlyOne(env, f, p), projectiles[1..], entity);
    }
  }

  lemma TickSpares(s: Sim, input: TickInput, entity: EntityId)
    requires Lawful(input.env.m) && Faithful(input.env.scene)
    requires AllFrom(s.state.projectiles, entity) && forall i :: i in input.intents ==> i.entity == entity
    ensures Unhurt(s.vitals, After(s, input).vitals, DamageIn(TickOf(s, input).results), entity)
    ensures AllFrom(After(s, input).state.projectiles, entity)
  {
    var env := input.env;
    var table := PutAll([], SortBy(s.state.weapons, WeaponLeq));
    NoDamageInReloads(table);
    SortMultiset(input.intents, IntentLeq);
    SortMultiset(s.state.projectiles, ProjectileLeq);
    var start := Tally(CoolAll(table), s.vitals, s.cursor, [], s.state.nextProjectileId, Reloads(table), []);
    FireAllSpares(env, s.vitals, start, SortBy(input.intents, IntentLeq), entity);
    var t := FirePhase(env, s.vitals, s.state, s.cursor, input.intents);
    FlyAllSpares(env, s.vitals, Flights(t.vitals, [], t.results, t.knockbacks),
                 SortBy(s.state.projectiles, ProjectileLeq), entity);
  }

  /**
   In a run where only `entity` fires, through any weapons and any faithful indexes, `entity`
   never loses health and appears in no damage outcome.
   */
  lemma {:induction false} LoneShooterIsUnhurt(s: Sim, inputs: seq<TickInput>, entity: EntityId)
    requires forall input :: input in inputs ==> Lawful(input.env.m) && Faithful(input.env.scene)
    requires AllFrom(s.state.projectiles, entity)
    requires forall input, i :: input in inputs && i in input.intents ==> i.entity == entity
    ensures Unhurt(s.vitals, Run(s, inputs).vitals, DamageIn(Report(s, inputs)), entity)
    decreases inputs
  {
    if inputs != [] {
      assert inputs[0] in inputs;
      TickSpares(s, inputs[0], entity);
      LoneShooterIsUnhurt(After(s, inputs[0]), inputs[1..], entity);
      DamageInAppend(TickOf(s, inputs[0]).results, Report(After(s, inputs[0]), inputs[1..]));
    }
  }

  // ----- everybody's shots -----

  /** A damage outcome together with the entity whose shot or projectile caused it. */
  datatype Blame = Blame(source: EntityId, outcome: DamageOutcome)

  function BlameOn(source: EntityId, outcomes: seq<DamageOutcome>): seq<Blame>
  {
    if outcomes == [] then [] else [Blame(source, outcomes[0])] + BlameOn(source, outcomes[1..])
  }

  function OutcomesIn(blames: seq<Blame>): seq<DamageOutcome>
  {
    if blames == [] then [] else [blames[0].outcome] + OutcomesIn(blames[1..])
  }

  ghost predicate NoneToSelf(blames: seq<Blame>)
  {
    forall b :: b in blames ==> b.outcome.target != b.source
  }

  ghost function FireBlame(env: Env, t: Tally, intents: seq<FireIntent>): seq<Blame>
    decreases intents
  {
    if intents == [] then []
    else
      BlameOn(intents[0].entity, DamageIn(NewResults(env, t, intents[0])))
      + FireBlame(env, FireOne(env, t, intents[0]), intents[1..])
  }

  ghost function FlightBlame(env: Env, f: Flights, projectiles: seq<Projectile>): seq<Blame>
    decreases projectiles
  {
    if projectiles == [] then []
    else
      var p := projectiles[0];
      var s := Step(env.m, Excluding(env.scene, p.source), env.policy, f.vitals, p);
      BlameOn(p.source, OutcomesOf(s.events)) + FlightBlame(env, FlyOne(env, f, p), projectiles[1..])
  }

  ghost function FirePhaseBlame(s: Sim, input: TickInput): seq<Blame>
  {
    var table := PutAll([], SortBy(s.state.weapons, WeaponLeq));
    FireBlame(input.env, Tally(CoolAll(table), s.vitals, s.cursor, [], s.state.nextProjectileId, Reloads(table), []),
              SortBy(input.intents, IntentLeq))
  }

  ghost function FlightPhaseBlame(s: Sim, input: TickInput, t: Tally): seq<Blame>
  {
    FlightBlame(input.env, Flights(t.vitals, [], t.results, t.knockbacks), SortBy(s.state.projectiles, ProjectileLeq))
  }

  ghost function TickBlame(s: Sim, input: TickInput): seq<Blame>
  {
    FirePhaseBlame(s, input)
    + FlightPhaseBlame(s, input, FirePhase(input.env, s.vitals, s.state, s.cursor, input.intents))
  }

  ghost function RunBlame(s: Sim, inputs: seq<TickInput>): seq<Blame>
    decreases inputs
  {
    if inputs == [] then [] else TickBlame(s, inputs[0]) + RunBlame(After(s, inputs[0]), inputs[1..])
  }

  lemma {:induction false} BlameOutcomes(source: EntityId, outcomes: seq<DamageOutcome>)
    ensures OutcomesIn(BlameOn(source, outcomes)) == outcomes
    ensures forall b :: b in BlameOn(source, outcomes) ==> b.source == source && b.outcome in outcomes
  {
    if outcomes != [] {
      BlameOutcomes(source, outcomes[1..]);
    }
  }

  lemma {:induction false} OutcomesInAppend(a: seq<Blame>, b: seq<Blame>)
    ensures OutcomesIn(a + b) == OutcomesIn(a) + OutcomesIn(b)
  {
    if a == [] {
      assert a + b == b;
    } else {
      OutcomesInAppend(a[1..], b);
      assert (a + b)[0] == a[0] && (a + b)[1..] == a[1..] + b;
    }
  }

  lemma {:induction false} FireBlameIsComplete(env: Env, t: Tally, intents: seq<FireIntent>)
    requires Lawful(env.m) && Faithful(env.scene)
    ensures DamageIn(FireAll(env, t, intents).results) == DamageIn(t.results) + OutcomesIn(FireBlame(env, t, intents))
    ensures NoneToSelf(FireBlame(env, t, intents))
    decreases intents
  {
    if intents == [] {
      assert DamageIn(t.results) + [] == DamageIn(t.results);
    } else {
      var next, dealt := FireOne(env, t, intents[0]), DamageIn(NewResults(env, t, intents[0]));
      var head, tail := BlameOn(intents[0].entity, dealt), FireBlame(env, next, intents[1..]);
      ShotSparesWielder(env, t, intents[0]);
      FireOneAdds(env, t, intents[0]);
      DamageInAppend(t.results, NewResults(env, t, intents[0]));
      BlameOutcomes(intents[0].entity, dealt);
      FireBlameIsComplete(env, next, intents[1..]);
      OutcomesInAppend(head, tail);
      Regroup(DamageIn(t.results), dealt, OutcomesIn(tail));
    }
  }

  lemma {:induction false} FlightBlameIsComplete(env: Env, f: Flights, projectiles: seq<Projectile>)
    requires Lawful(env.m) && Faithful(env.scene)
    ensures DamageIn(FlyAll(env, f, projectiles).results) ==
            DamageIn(f.results) + OutcomesIn(FlightBlame(env, f, projectiles))
    ensures NoneToSelf(FlightBlame(env, f, projectiles))
    decreases projectiles
  {
    if projectiles == [] {
      assert DamageIn(f.results) + [] == DamageIn(f.results);
    } else {
      var p := projectiles[0];
      var s := Step(env.m, Excluding(env.scene, p.source), env.policy, f.vitals, p);
      var dealt := OutcomesOf(s.events);
      var head, tail := BlameOn(p.source, dealt), FlightBlame(env, FlyOne(env, f, p), projectiles[1..]);
      FlightSparesSource(env, f.vitals, p);
      DamageInFlight(s.events);
      DamageInAppend(f.results, FlightResults(s.events));
      BlameOutcomes(p.source, dealt);
      FlightBlameIsComplete(env, FlyOne(env, f, p), projectiles[1..]);
      OutcomesInAppend(head, tail);
      Regroup(DamageIn(f.results), dealt, OutcomesIn(tail));
    }
  }

  lemma FirePhaseBlameIsComplete(s: Sim, input: TickInput)
    requires Lawful(input.env.m) && Faithful(input.env.scene)
    ensures DamageIn(FirePhase(input.env, s.vitals, s.state, s.cursor,
                               input.intents).results) == OutcomesIn(FirePhaseBlame(s, input))
    ensures NoneToSelf(FirePhaseBlame(s, input))
  {
    var table := PutAll([], SortBy(s.state.weapons, WeaponLeq));
    NoDamageInReloads(table);
    FireBlameIsComplete(input.env, Tally(CoolAll(table), s.vitals, s.cursor, [], s.state.nextProjectileId,
                                         Reloads(table), []),
                        SortBy(input.intents, IntentLeq));
  }

  lemma FlightPhaseBlameIsComplete(s: Sim, input: TickInput, t: Tally)
    requires Lawful(input.env.m) && Faithful(input.env.scene)
    ensures DamageIn(FlightPhase(input.env, t,
                                 s.state).results) == DamageIn(t.results) + OutcomesIn(FlightPhaseBlame(s, input, t))
    ensures NoneToSelf(FlightPhaseBlame(s, input, t))
  {
    FlightBlameIsComplete(input.env, Flights(t.vitals, [], t.results, t.knockbacks),
                          SortBy(s.state.projectiles, ProjectileLeq));
  }

  lemma TickBlameIsComplete(s: Sim, input: TickInput)
    requires Lawful(input.env.m) && Faithful(input.env.scene)
    ensures DamageIn(TickOf(s, input).results) == OutcomesIn(TickBlame(s, input))
    ensures NoneToSelf(TickBlame(s, input))
  {
    var t := FirePhase(input.env, s.vitals, s.state, s.cursor, input.intents);
    FirePhaseBlameIsComplete(s, input);
    FlightPhaseBlameIsComplete(s, input, t);
    OutcomesInAppend(FirePhaseBlame(s, input), FlightPhaseBlame(s, input, t));
  }

  /**
   Over any run, whoever fires, every reported damage outcome was caused by a shot or a
   projectile of an entity other than its target.
   */
  lemma {:induction false} NobodyHurtsThemselves(s: Sim, inputs: seq<TickInput>)
    requires forall input :: input in inputs ==> Lawful(input.env.m) && Faithful(input.env.scene)
    ensures DamageIn(Report(s, inputs)) == OutcomesIn(RunBlame(s, inputs))
    ensures NoneToSelf(RunBlame(s, inputs))
    decreases inputs
  {
    if inputs != [] {
      var next := After(s, inputs[0]);
      assert inputs[0] in inputs;
      TickBlameIsComplete(s, inputs[0]);
      NobodyHurtsThemselves(next, inputs[1..]);
      DamageInAppend(TickOf(s, inputs[0]).results, Report(next, inputs[1..]));
      OutcomesInAppend(TickBlame(s, inputs[0]), RunBlame(next, inputs[1..]));
    }
  }
}
