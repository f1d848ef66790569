/**
 What every run of combat ticks keeps: the health ledger, the identity and lifetime of
 projectiles, and the safety of a shooter from their own shots.
 */
module CombatRuns {
  import opened Wrappers
  import opened Sorting
  import opened Geometry
  import opened Damage
  import opened World
  import opened Targeting
  import opened Delivery
  import opened Impact
  import opened Projectiles
  import opened Weapon
  import opened Combat

  /** One tick's inputs; between ticks the scene, the policy and the entropy may change freely. */
  datatype TickInput = TickInput(env: Env, intents: seq<FireIntent>)

  datatype Sim = Sim(vitals: Vitals, state: TickState, cursor: nat)

  ghost function TickOf(s: Sim, input: TickInput): TickResult
  {
    RunTick(input.env, s.vitals, s.state, s.cursor, input.intents)
  }

  ghost function After(s: Sim, input: TickInput): Sim
  {
    var r := TickOf(s, input);
    Sim(r.vitals, r.state, r.cursor)
  }

  /** A run without outside healing: the caller writes no health between ticks. */
  ghost function Run(s: Sim, inputs: seq<TickInput>): Sim
    decreases inputs
  {
    if inputs == [] then s else Run(After(s, inputs[0]), inputs[1..])
  }

  /** Everything a run reports, in order. */
  ghost function Report(s: Sim, inputs: seq<TickInput>): seq<CombatResult>
    decreases inputs
  {
    if inputs == [] then [] else TickOf(s, inputs[0]).results + Report(After(s, inputs[0]), inputs[1..])
  }

  // ----- runs ignore the index -----

  function Bare(inputs: seq<TickInput>): seq<TickInput>
  {
    if inputs == [] then [] else [inputs[0].(env := BareEnv(inputs[0].env))] + Bare(inputs[1..])
  }

  /** A whole run over worlds with any faithful indexes is the run over the same worlds without. */
  lemma {:induction false} RunIgnoresIndex(s: Sim, inputs: seq<TickInput>)
    requires forall input :: input in inputs ==> Lawful(input.env.m) && Faithful(input.env.scene)
    ensures Run(s, inputs) == Run(s, Bare(inputs)) && Report(s, inputs) == Report(s, Bare(inputs))
    decreases inputs
  {
    if inputs != [] {
      TickIgnoresIndex(inputs[0].env, s.vitals, s.state, s.cursor, inputs[0].intents);
      assert Bare(inputs)[1..] == Bare(inputs[1..]);
      RunIgnoresIndex(After(s, inputs[0]), inputs[1..]);
    }
  }

  /** The reference world's lazily built grid index changes nothing that a tick returns. */
  lemma ReferenceIndexIsInvisible(roster: seq<EntityId>, positions: map<EntityId, Vec2>, teams: map<EntityId, TeamId>,
                                  blockers: seq<Blocker>,
                                  env: Env, s: Sim, intents: seq<FireIntent>)
    requires Distinct(roster) && Lawful(env.m)
    ensures TickOf(s, TickInput(env.(scene := MakeScene(roster, positions, teams, blockers, true)), intents)) ==
            TickOf(s, TickInput(env.(scene := MakeScene(roster, positions, teams, blockers, false)), intents))
  {
    var indexed := env.(scene := MakeScene(roster, positions, teams, blockers, true));
    MakeSceneIsFaithful(roster, positions, teams, blockers, true);
    TickIgnoresIndex(indexed, s.vitals, s.state, s.cursor, intents);
    assert BareEnv(indexed) == env.(scene := MakeScene(roster, positions, teams, blockers, false));
  }

  // ----- the ledger -----

  function OutcomeIn(result: CombatResult): seq<DamageOutcome>
  {
    match result
    case Damaged(outcome) => [outcome]
    case InFlight(ProjectileDamage(outcome)) => [outcome]
    case _ => []
  }

  function DamageIn(results: seq<CombatResult>): seq<DamageOutcome>
  {
    if results == [] then [] else OutcomeIn(results[0]) + DamageIn(results[1..])
  }

  lemma {:induction false} DamageInAppend(a: seq<CombatResult>, b: seq<CombatResult>)
    ensures DamageIn(a + b) == DamageIn(a) + DamageIn(b)
  {
    if a == [] {
      assert a + b == b;
    } else {
      DamageInAppend(a[1..], b);
      assert (a + b)[0] == a[0] && (a + b)[1..] == a[1..] + b;
      Regroup(OutcomeIn(a[0]), DamageIn(a[1..]), DamageIn(b));
    }
  }

  lemma DamageInOne(r: CombatResult)
    ensures DamageIn([r]) == OutcomeIn(r)
  {
    assert [r][1..] == [];
  }

  lemma {:induction false} NoDamageInReloads(table: seq<EquippedWeapon>)
    ensures DamageIn(Reloads(table)) == []
  {
    if table != [] {
      NoDamageInReloads(table[1..]);
      var reload := AdvanceWeapon(table[0].definition, table[0].state, 1).1;
      if reload.Some? {
        DamageInOne(Reloaded(reload.value));
      }
      DamageInAppend(if reload.Some? then [Reloaded(reload.value)] else [], Reloads(table[1..]));
    }
  }

  lemma {:induction false} DamageInOutcomes(outcomes: seq<DamageOutcome>)
    ensures DamageIn(DamageResults(outcomes)) == outcomes
  {
    if outcomes != [] {
      DamageInOutcomes(outcomes[1..]);
    }
  }

  lemma {:induction false} NoDamageInStatusesOn(target: EntityId, effects: seq<StatusEffectId>, source: EntityId)
    ensures DamageIn(StatusesOn(target, effects, source)) == []
  {
    if effects != [] {
      NoDamageInStatusesOn(target, effects[1..], source);
    }
  }

  lemma {:induction false} NoDamageInStatuses(outcomes: seq<DamageOutcome>, effects: seq<StatusEffectId>,
      source: EntityId)
    ensures DamageIn(Statuses(outcomes, effects, source)) == []
  {
    if outcomes != [] {
      NoDamageInStatuses(outcomes[1..], effects, source);
      NoDamageInStatusesOn(outcomes[0].target, effects, source);
      DamageInAppend(if DamageDealt(outcomes[0]) then StatusesOn(outcomes[0].target, effects, source) else [],
                     Statuses(outcomes[1..], effects, source));
    }
  }

  lemma {:induction false} DamageInFlight(events: seq<ProjectileEvent>)
    ensures DamageIn(FlightResults(events)) == OutcomesOf(events)
  {
    if events != [] {
      DamageInFlight(events[1..]);
    }
  }

  /** What one fire intent adds to the results. */
  ghost function NewResults(env: Env, t: Tally, intent: FireIntent): seq<CombatResult>
  {
    match Lookup(t.table, intent.entity, intent.weapon)
    case None => []
    case Some(w) =>
      var outcome := FireWeapon(w.definition, w.state).1;
      [Fired(outcome)] +
      if !outcome.WeaponFired? then []
      else if w.delivery.ProjectileDelivery? then
        var p := Launch(env, t, intent, w.delivery);
        [ProjectileSpawned(p.id, p.source, p.position, p.velocity)]
      else
        var outcomes := Volley(env, t, intent, w.delivery).outcomes;
        DamageResults(outcomes) + Statuses(outcomes, intent.appliesStatus, intent.entity)
  }

  lemma FireOneAdds(env: Env, t: Tally, intent: FireIntent)
    ensures FireOne(env, t, intent).results == t.results + NewResults(env, t, intent)
  {
    var found := Lookup(t.table, intent.entity, intent.weapon);
    if found.Some? {
      var outcome := FireWeapon(found.value.definition, found.value.state).1;
      var fired := [Fired(outcome)];
      if outcome.WeaponFired? && !found.value.delivery.ProjectileDelivery? {
        var outcomes := Volley(env, t, intent, found.value.delivery).outcomes;
        var d, s := DamageResults(outcomes), Statuses(outcomes, intent.appliesStatus, intent.entity);
        Regroup(t.results + fired, d, s);
        Regroup(t.results, fired, d + s);
      } else if outcome.WeaponFired? {
        var p := Launch(env, t, intent, found.value.delivery);
        Regroup(t.results, fired, [ProjectileSpawned(p.id, p.source, p.position, p.velocity)]);
      }
    }
  }

  lemma FireOneBalances(env: Env, t: Tally, intent: FireIntent)
    ensures Balanced(t.vitals, FireOne(env, t, intent).vitals, DamageIn(NewResults(env, t, intent)))
  {
    BalancedNone(t.vitals);
    var found := Lookup(t.table, intent.entity, intent.weapon);
    if found.Some? {
      var w := found.value;
      var outcome := FireWeapon(w.definition, w.state).1;
      DamageInOne(Fired(outcome));
      if outcome.WeaponFired? {
        if w.delivery.ProjectileDelivery? {
          var p := Launch(env, t, intent, w.delivery);
          var spawned := ProjectileSpawned(p.id, p.source, p.position, p.velocity);
          DamageInOne(spawned);
          DamageInAppend([Fired(outcome)], [spawned]);
        } else {
          VolleyBalances(env, t, intent, w.delivery);
          var outcomes := Volley(env, t, intent, w.delivery).outcomes;
          var d, s := DamageResults(outcomes), Statuses(outcomes, intent.appliesStatus, intent.entity);
          DamageInAppend([Fired(outcome)], d + s);
          DamageInAppend(d, s);
          DamageInOutcomes(outcomes);
          NoDamageInStatuses(outcomes, intent.appliesStatus, intent.entity);
          assert DamageIn([Fired(outcome)] + (d + s)) == outcomes;
        }
      }
    }
  }

  lemma VolleyBalances(env: Env, t: Tally, intent: FireIntent, delivery: DamageDelivery)
    ensures var r := Volley(env, t, intent, delivery);
            Balanced(t.vitals, r.vitals, r.outcomes)
  {
    var shot := Shot(OriginOf(env.scene, intent), intent.aim, intent.heldTicks);
    HitsBalance(Impulse(env.m), t.vitals, env.scene.teams, SourceOf(env.scene, intent.entity), env.policy,
                Plan(env.m, Excluding(env.scene, intent.entity), delivery, shot, env.draws, t.cursor));
  }

  lemma {:induction false} FireAllBalances(env: Env, start: Vitals, t: Tally, intents: seq<FireIntent>)
    requires Balanced(start, t.vitals, DamageIn(t.results))
    ensures var end := FireAll(env, t, intents);
            Balanced(start, end.vitals, DamageIn(end.results))
    decreases intents
  {
    if intents != [] {
      var next := FireOne(env, t, intents[0]);
      FireOneAdds(env, t, intents[0]);
      FireOneBalances(env, t, intents[0]);
      DamageInAppend(t.results, NewResults(env, t, intents[0]));
      BalancedJoin(start, t.vitals, next.vitals, DamageIn(t.results), DamageIn(NewResults(env, t, intents[0])));
      FireAllBalances(env, start, next, intents[1..]);
    }
  }

  lemma StepBalances(env: Env, vitals: Vitals, p: Projectile)
    ensures var s := Step(env.m, Excluding(env.scene, p.source), env.policy, vitals, p);
            Balanced(vitals, s.vitals, OutcomesOf(s.events))
  {
    var scene := Excluding(env.scene, p.source);
    var move := MoveOf(env.m, scene.blockers, SweepIn(env.m, scene, p.radius), p);
    PlayOutcomes(Impulse(env.m), scene.teams, env.policy, vitals, p, move);
    if move.Strike? {
      var blow := StrikeOf(p, move.hit);
      HitIsAccounted(vitals, scene.teams, blow.target, blow.amount, ProjectileSource(p), env.policy);
      var (after, outcome) := HitEntity(vitals, scene.teams, blow.target, blow.amount, ProjectileSource(p), env.policy);
      BalancedOne(vitals, after, outcome);
    } else {
      BalancedNone(vitals);
    }
  }

  lemma {:induction false} FlyAllBalances(env: Env, start: Vitals, f: Flights, projectiles: seq<Projectile>)
    requires Balanced(start, f.vitals, DamageIn(f.results))
    ensures var end := FlyAll(env, f, projectiles);
            Balanced(start, end.vitals, DamageIn(end.results))
    decreases projectiles
  {
    if projectiles != [] {
      var p := projectiles[0];
      var s := Step(env.m, Excluding(env.scene, p.source), env.policy, f.vitals, p);
      var next := FlyOne(env, f, p);
      StepBalances(env, f.vitals, p);
      DamageInFlight(s.events);
      DamageInAppend(f.results, FlightResults(s.events));
      BalancedJoin(start, f.vitals, next.vitals, DamageIn(f.results), OutcomesOf(s.events));
      FlyAllBalances(env, start, next, projectiles[1..]);
    }
  }

  lemma TickBalances(s: Sim, input: TickInput)
    ensures Balanced(s.vitals, After(s, input).vitals, DamageIn(TickOf(s, input).results))
  {
    var env := input.env;
    var table := PutAll([], SortBy(s.state.weapons, WeaponLeq));
    NoDamageInReloads(table);
    BalancedNone(s.vitals);
    var start := Tally(CoolAll(table), s.vitals, s.cursor, [], s.state.nextProjectileId, Reloads(table), []);
    FireAllBalances(env, s.vitals, start, SortBy(input.intents, IntentLeq));
    var t := FirePhase(env, s.vitals, s.state, s.cursor, input.intents);
    FlyAllBalances(env, s.vitals, Flights(t.vitals, [], t.results, t.knockbacks),
                   SortBy(s.state.projectiles, ProjectileLeq));
  }

  /**
   Over any run without outside healing every entity has lost exactly the health its damage
   results report, pools that started in bounds are still in bounds, the defeated stay as they
   fell, and a defeat is reported exactly once for each entity that went from standing to
   defeated and never for anybody else.
   */
  lemma {:induction false} RunBalances(s: Sim, inputs: seq<TickInput>)
    ensures Balanced(s.vitals, Run(s, inputs).vitals, DamageIn(Report(s, inputs)))
    decreases inputs
  {
    if inputs == [] {
      BalancedNone(s.vitals);
    } else {
      var next := After(s, inputs[0]);
      TickBalances(s, inputs[0]);
      RunBalances(next, inputs[1..]);
      DamageInAppend(TickOf(s, inputs[0]).results, Report(next, inputs[1..]));
      BalancedJoin(s.vitals, next.vitals, Run(s, inputs).vitals, DamageIn(TickOf(s, inputs[0]).results),
                   DamageIn(Report(next, inputs[1..])));
    }
  }
}
