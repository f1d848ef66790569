/**
 Projectiles persisted in flight and advanced one tick at a time
 (packages/simulation/src/projectile.ts), and their agreement with the whole-flight
 resolution of delivery.ts.
 */
module Projectiles {
  import opened Wrappers
  import opened Geometry
  import opened Damage
  import opened World
  import opened Targeting
  import opened Delivery
  import opened Impact
  import opened Resolvers
  import opened FlightLaws
  import Rng

  type ProjectileId = int

  datatype Projectile = Projectile(
    id: ProjectileId,
    source: EntityId,
    sourceTeam: Option<TeamId>,
    position: Vec2,
    velocity: Vec2,
    ttlRemaining: int,
    damage: real,
    radius: real,
    falloff: Falloff,
    knockback: real,
    travelled: real)

  /** A fresh projectile for a projectile delivery. */
  function CreateProjectile(m: Maths, id: ProjectileId, source: EntityId, sourceTeam: Option<TeamId>, origin: Vec2,
                            aim: Vec2, d: DamageDelivery): Projectile
    requires d.ProjectileDelivery?
  {
    Projectile(id, source, sourceTeam, origin, ScaleVec(NormalizeVec(m, aim), d.speed), d.ttlTicks,
               d.damage, d.radius, d.falloff, d.knockback, 0.0)
  }

  function ProjectileSource(p: Projectile): DamageSource
  {
    DamageSource(Some(p.source), p.sourceTeam)
  }

  datatype ExpiredReason = Hit | Stopped | Ttl

  datatype ProjectileEvent =
    | ProjectileMoved(projectile: ProjectileId, at: Vec2)
    | ProjectileExpired(projectile: ProjectileId, reason: ExpiredReason, at: Vec2)
    | ProjectileDamage(outcome: DamageOutcome)

  /** What one tick of flight does, before any health is written. */
  datatype Move =
    | Halt(at: Vec2)
    | Strike(hit: Struck)
    | Expire(at: Vec2)
    | Fly(next: Projectile)

  ghost function MoveOf(m: Maths, blockers: seq<Blocker>, sweep: Sweeper, p: Projectile): Move
  {
    var to := AddVec(p.position, p.velocity);
    if Blocked(blockers, p.position, to, p.radius) then Halt(to)
    else
      match sweep(p.position, to, p.travelled)
      case Some(hit) => Strike(hit)
      case None =>
        if p.ttlRemaining - 1 <= 0 then Expire(to)
        else Fly(p.(position := to, ttlRemaining := p.ttlRemaining - 1,
                    travelled := p.travelled + VecLength(m, p.velocity)))
  }

  datatype StepResult = StepResult(alive: Option<Projectile>, vitals: Vitals, events: seq<ProjectileEvent>,
                                   knockbacks: seq<Knockback>)

  /** The hit a projectile lands, pushing away from where its tick began. */
  function StrikeOf(p: Projectile, hit: Struck): PlannedHit
  {
    HitFrom(p.damage, p.falloff, p.knockback, p.position)(hit)
  }

  function Play(push: PlannedHit -> Knockback, teams: map<EntityId, TeamId>, policy: Policy, vitals: Vitals,
                p: Projectile, move: Move): StepResult
  {
    match move
    case Halt(at) => StepResult(None, vitals, [ProjectileExpired(p.id, Stopped, at)], [])
    case Strike(hit) =>
      var r := LandHit(push, vitals, teams, ProjectileSource(p), policy, StrikeOf(p, hit));
      StepResult(None, r.vitals, [ProjectileDamage(r.outcomes[0]), ProjectileExpired(p.id, Hit, hit.position)],
                 r.knockbacks)
    case Expire(at) => StepResult(None, vitals, [ProjectileMoved(p.id, at), ProjectileExpired(p.id, Ttl, at)], [])
    case Fly(next) => StepResult(Some(next), vitals, [ProjectileMoved(p.id, next.position)], [])
  }

  /** Advance one projectile by one tick over a scene that already hides its source. */
  ghost function Step(m: Maths, scene: Scene, policy: Policy, vitals: Vitals, p: Projectile): StepResult
  {
    Play(Impulse(m), scene.teams, policy, vitals, p, MoveOf(m, scene.blockers, SweepIn(m, scene, p.radius), p))
  }

  lemma StepIgnoresIndex(m: Maths, scene: Scene, policy: Policy, vitals: Vitals, p: Projectile)
    requires Lawful(m) && Faithful(scene)
    ensures Step(m, scene, policy, vitals, p) == Step(m, WithoutIndex(scene), policy, vitals, p)
  {
    SweptHitIgnoresIndex(m, scene, p.radius, p.position, AddVec(p.position, p.velocity), p.travelled);
  }

  /** A step strikes only entities the scene enumerates. */
  lemma StepTargets(m: Maths, scene: Scene, p: Projectile)
    requires Lawful(m) && Faithful(scene)
    ensures var move := MoveOf(m, scene.blockers, SweepIn(m, scene, p.radius), p);
            move.Strike? ==> move.hit.entity in scene.entities
  {
    var to := AddVec(p.position, p.velocity);
    SweptHitIgnoresIndex(m, scene, p.radius, p.position, to, p.travelled);
    SweptHitIsEntity(m, WithoutIndex(scene), p.radius, p.position, to, p.travelled);
  }

  // ----- whole flights -----

  function OutcomesOf(events: seq<ProjectileEvent>): seq<DamageOutcome>
  {
    if events == [] then []
    else (if events[0].ProjectileDamage? then [events[0].outcome] else []) + OutcomesOf(events[1..])
  }

  /** Advance a projectile tick after tick until it leaves flight, over a scene that stands still. */
  ghost function Stepping(m: Maths, scene: Scene, policy: Policy, vitals: Vitals, p: Projectile): Resolution
    decreases p.ttlRemaining
  {
    var s := Step(m, scene, policy, vitals, p);
    var now := Resolution(s.vitals, OutcomesOf(s.events), s.knockbacks);
    if s.alive.None? then now
    else Join(now, Stepping(m, scene, policy, s.vitals, s.alive.value))
  }

  lemma OutcomesOfTwo(a: ProjectileEvent, b: ProjectileEvent)
    requires !b.ProjectileDamage?
    ensures OutcomesOf([a, b]) == if a.ProjectileDamage? then [a.outcome] else []
  {
    assert [a, b][1..] == [b] && [b][1..] == [];
    assert OutcomesOf([b]) == [] + OutcomesOf([]);
  }

  lemma PlayOutcomes(push: PlannedHit -> Knockback, teams: map<EntityId, TeamId>, policy: Policy, vitals: Vitals,
                     p: Projectile, move: Move)
    ensures var s := Play(push, teams, policy, vitals, p, move);
            var now := Resolution(s.vitals, OutcomesOf(s.events), s.knockbacks);
            now == if move.Strike? then LandHit(push, vitals, teams, ProjectileSource(p), policy, StrikeOf(p, move.hit))
                   else Resolution(vitals, [], [])
  {
    match move
    case Halt(at) => assert [ProjectileExpired(p.id, Stopped, at)][1..] == [];
    case Strike(hit) =>
      var r := LandHit(push, vitals, teams, ProjectileSource(p), policy, StrikeOf(p, hit));
      OutcomesOfTwo(ProjectileDamage(r.outcomes[0]), ProjectileExpired(p.id, Hit, hit.position));
      assert r.outcomes == [r.outcomes[0]];
    case Expire(at) => OutcomesOfTwo(ProjectileMoved(p.id, at), ProjectileExpired(p.id, Ttl, at));
    case Fly(next) => assert [ProjectileMoved(p.id, next.position)][1..] == [];
  }

  lemma StepOutcomes(m: Maths, scene: Scene, policy: Policy, vitals: Vitals, p: Projectile)
    ensures var move := MoveOf(m, scene.blockers, SweepIn(m, scene, p.radius), p);
            var stepped := Stepping(m, scene, policy, vitals, p);
            && (move.Strike? ==>
                  stepped ==
                  LandHit(Impulse(m), vitals, scene.teams, ProjectileSource(p), policy, StrikeOf(p, move.hit)))
            && (move.Fly? ==> stepped == Stepping(m, scene, policy, vitals, move.next))
            && (!move.Strike? && !move.Fly? ==> stepped == Resolution(vitals, [], []))
  {
    var move := MoveOf(m, scene.blockers, SweepIn(m, scene, p.radius), p);
    PlayOutcomes(Impulse(m), scene.teams, policy, vitals, p, move);
    if move.Fly? {
      JoinNothing(Stepping(m, scene, policy, vitals, move.next), vitals);
    }
  }

  lemma JoinNothing(r: Resolution, vitals: Vitals)
    ensures Join(Resolution(vitals, [], []), r) == r
  {
    assert [] + r.outcomes == r.outcomes && [] + r.knockbacks == r.knockbacks;
  }

  /** Same target, same amount, same strength; the push may point elsewhere. */
  predicate SameBlow(a: PlannedHit, b: PlannedHit)
  {
    a.target == b.target && a.amount == b.amount && a.knockback == b.knockback
  }

  /** Two resolutions with the same health, the same outcomes and impulses alike in target and strength. */
  ghost predicate Agree(a: Resolution, b: Resolution)
  {
    && a.vitals == b.vitals && a.outcomes == b.outcomes && |a.knockbacks| == |b.knockbacks|
    && forall i :: 0 <= i < |a.knockbacks| ==> AlikeImpulses(a.knockbacks[i], b.knockbacks[i])
  }

  lemma AgreeingThrough(a: Resolution, b: Resolution, c: Resolution)
    requires Agree(a, b)
    ensures Agree(a, c) <==> Agree(b, c)
  {
  }

  lemma SameBlowAgrees(push: PlannedHit -> Knockback, vitals: Vitals, teams: map<EntityId, TeamId>,
                       source: DamageSource, policy: Policy, a: PlannedHit, b: PlannedHit)
    requires SameBlow(a, b) && PushesByStrength(push)
    ensures Agree(LandHit(push, vitals, teams, source, policy, a), ApplyHits(push, vitals, teams, source, policy, [b]))
  {
    ApplyOneHit(push, vitals, teams, source, policy, b);
    assert PushesAlike(push, a, b);
  }

  lemma StrikesAlike(p: Projectile, origin: Vec2, hit: Struck, s: Struck)
    requires hit.entity == s.entity && (p.falloff.NoFalloff? || hit.along == s.along)
    ensures SameBlow(StrikeOf(p, hit), HitFrom(p.damage, p.falloff, p.knockback, origin)(s))
  {
  }

  /** The sweep of one tick finds the same body whatever distance came before. */
  lemma SweepShifts(m: Maths, scene: Scene, radius: real, from: Vec2, to: Vec2, t: real, u: real)
    ensures var a, b := SweepIn(m, scene, radius)(from, to, t), SweepIn(m, scene, radius)(from, to, u);
            && (a.None? <==> b.None?)
            && (a.Some? ==> a.value.entity == b.value.entity && a.value.position == b.value.position
                            && a.value.along - t == b.value.along - u)
  {
  }

  /** `p` is the flight `f` at its tick `tick`, as far as hits are concerned. */
  ghost predicate Tracks(m: Maths, f: Flight, p: Projectile, current: Vec2, travelled: real, tick: int)
  {
    && p.position == current && p.velocity == f.step && p.radius == f.radius
    && p.ttlRemaining == f.ttlTicks - tick
    && (p.falloff.NoFalloff? || (p.travelled == travelled && VecLength(m, p.velocity) == f.speed))
  }

  /** Stepping `p` has the effect of the rest of its plan, which hits at most once. */
  ghost predicate FollowsPlan(m: Maths, scene: Scene, policy: Policy, vitals: Vitals, f: Flight, origin: Vec2,
                              p: Projectile, current: Vec2, travelled: real, tick: int)
  {
    var hitOf := HitFrom(p.damage, p.falloff, p.knockback, origin);
    var plan := PlanFlight(scene.blockers, SweepIn(m, scene, f.radius), f, hitOf, current, travelled, tick);
    && |plan| <= 1
    && Agree(Stepping(m, scene, policy, vitals, p),
             ApplyHits(Impulse(m), vitals, scene.teams, ProjectileSource(p), policy, plan))
  }

  lemma {:induction false} SteppingFollowsPlan(m: Maths, scene: Scene, policy: Policy, vitals: Vitals,
                                               f: Flight, origin: Vec2, p: Projectile,
                                               current: Vec2, travelled: real, tick: int)
    requires Lawful(m) && Tracks(m, f, p, current, travelled, tick) && tick < f.ttlTicks
    ensures FollowsPlan(m, scene, policy, vitals, f, origin, p, current, travelled, tick)
    decreases f.ttlTicks - tick
  {
    var move := MoveOf(m, scene.blockers, SweepIn(m, scene, f.radius), p);
    if move.Fly? {
      var next, flown := AddVec(current, f.step), travelled + f.speed;
      FliesOn(m, scene, policy, vitals, f, origin, p, current, travelled, tick);
      SteppingFollowsPlan(m, scene, policy, vitals, f, origin, move.next, next, flown, tick + 1);
    } else {
      TickFollowsPlan(m, scene, policy, vitals, f, origin, p, current, travelled, tick);
    }
  }

  /** What flies on follows its plan if it follows it from the next tick on. */
  lemma FliesOn(m: Maths, scene: Scene, policy: Policy, vitals: Vitals, f: Flight, origin: Vec2, p: Projectile,
                current: Vec2, travelled: real, tick: int)
    requires Lawful(m) && Tracks(m, f, p, current, travelled, tick) && tick < f.ttlTicks
    requires MoveOf(m, scene.blockers, SweepIn(m, scene, f.radius), p).Fly?
    ensures var q := MoveOf(m, scene.blockers, SweepIn(m, scene, f.radius), p).next;
            var next, flown := AddVec(current, f.step), travelled + f.speed;
            && tick + 1 < f.ttlTicks && Tracks(m, f, q, next, flown, tick + 1)
            && FollowsPlan(m, scene, policy, vitals, f, origin, p, current, travelled, tick) ==
               FollowsPlan(m, scene, policy, vitals, f, origin, q, next, flown, tick + 1)
  {
    TickFollowsPlan(m, scene, policy, vitals, f, origin, p, current, travelled, tick);
  }

  /** One tick: it ends both the stepping and the plan alike, or leaves both to the next tick. */
  lemma TickFollowsPlan(m: Maths, scene: Scene, policy: Policy, vitals: Vitals,
                        f: Flight, origin: Vec2, p: Projectile, current: Vec2, travelled: real, tick: int)
    requires Lawful(m) && Tracks(m, f, p, current, travelled, tick) && tick < f.ttlTicks
    ensures var sweep, next := SweepIn(m, scene, f.radius), AddVec(current, f.step);
            var hitOf, move := HitFrom(p.damage, p.falloff, p.knockback, origin), MoveOf(m, scene.blockers, sweep, p);
            var plan, stepped := PlanFlight(scene.blockers, sweep, f, hitOf, current, travelled, tick),
                                 Stepping(m, scene, policy, vitals, p);
            if move.Fly? then
              && tick + 1 < f.ttlTicks && Tracks(m, f, move.next, next, travelled + f.speed, tick + 1)
              && move.next.(position := p.position, ttlRemaining := p.ttlRemaining, travelled := p.travelled) == p
              && plan == PlanFlight(scene.blockers, sweep, f, hitOf, next, travelled + f.speed, tick + 1)
              && stepped == Stepping(m, scene, policy, vitals, move.next)
            else
              && |plan| <= 1
              && Agree(stepped, ApplyHits(Impulse(m), vitals, scene.teams, ProjectileSource(p), policy, plan))
  {
    var sweep, next := SweepIn(m, scene, f.radius), AddVec(current, f.step);
    StepOutcomes(m, scene, policy, vitals, p);
    SweepShifts(m, scene, f.radius, current, next, p.travelled, travelled);
    MoveMatchesPlan(m, scene.blockers, sweep, f, HitFrom(p.damage, p.falloff, p.knockback, origin), p, current,
                    travelled, tick);
    var move := MoveOf(m, scene.blockers, sweep, p);
    if move.Strike? {
      ImpulsePushesByStrength(m);
      StrikeFollowsPlan(Impulse(m), scene.teams, policy, vitals, p, origin, move.hit,
                        sweep(current, next, travelled).value);
    }
  }

  /** The tick's move decides the rest of the plan. */
  lemma MoveMatchesPlan(m: Maths, blockers: seq<Blocker>, sweep: Sweeper, f: Flight, hitOf: Struck -> PlannedHit,
                        p: Projectile, current: Vec2, travelled: real, tick: int)
    requires Tracks(m, f, p, current, travelled, tick) && tick < f.ttlTicks
    requires sweep(current, AddVec(current, f.step), p.travelled).None? <==>
        sweep(current, AddVec(current, f.step), travelled).None?
    ensures var move, next := MoveOf(m, blockers, sweep, p), AddVec(current, f.step);
            var plan := PlanFlight(blockers, sweep, f, hitOf, current, travelled, tick);
            && (move.Strike? ==> sweep(current, next, travelled).Some?
                                 && plan == [hitOf(sweep(current, next, travelled).value)]
                                 && move.hit == sweep(current, next, p.travelled).value)
            && (move.Fly? ==> tick + 1 < f.ttlTicks && Tracks(m, f, move.next, next, travelled + f.speed, tick + 1)
                              && move.next.(position := p.position, ttlRemaining := p.ttlRemaining,
                                            travelled := p.travelled) == p
                              && plan == PlanFlight(blockers, sweep, f, hitOf, next, travelled + f.speed, tick + 1))
            && (move.Halt? || move.Expire? ==> plan == [])
  {
  }

  lemma StrikeFollowsPlan(push: PlannedHit -> Knockback, teams: map<EntityId, TeamId>, policy: Policy, vitals: Vitals,
                          p: Projectile, origin: Vec2, hit: Struck, s: Struck)
    requires PushesByStrength(push)
    requires hit.entity == s.entity && (p.falloff.NoFalloff? || hit.along == s.along)
    ensures var planned := HitFrom(p.damage, p.falloff, p.knockback, origin)(s);
            Agree(LandHit(push, vitals, teams, ProjectileSource(p), policy, StrikeOf(p, hit)),
                  ApplyHits(push, vitals, teams, ProjectileSource(p), policy, [planned]))
  {
    StrikesAlike(p, origin, hit, s);
    SameBlowAgrees(push, vitals, teams, ProjectileSource(p), policy, StrikeOf(p, hit),
                   HitFrom(p.damage, p.falloff, p.knockback, origin)(s));
  }

  /** A delivery's flight as the projectile counts it: by the length of its velocity. */
  function SteppedFlight(m: Maths, d: DamageDelivery, aim: Vec2): Flight
    requires d.ProjectileDelivery?
  {
    FlightOf(m, d, aim).(speed := Abs(d.speed))
  }

  /** From its creation a projectile with a lifetime agrees with the plan of its stepped flight. */
  lemma SteppingFromCreation(m: Maths, scene: Scene, policy: Policy, vitals: Vitals,
                             id: ProjectileId, source: EntityId, team: Option<TeamId>, shot: Shot, d: DamageDelivery)
    requires Lawful(m) && d.ProjectileDelivery? && d.ttlTicks >= 1
    ensures var p := CreateProjectile(m, id, source, team, shot.origin, shot.aim, d);
            var plan := PlanFlight(scene.blockers, SweepIn(m, scene, d.radius), SteppedFlight(m, d, shot.aim),
                                   HitFrom(d.damage, d.falloff, d.knockback, shot.origin), shot.origin, 0.0, 0);
            && |plan| <= 1
            && Agree(Stepping(m, scene, policy, vitals, p),
                     ApplyHits(Impulse(m), vitals, scene.teams, DamageSource(Some(source), team), policy, plan))
  {
    var p := CreateProjectile(m, id, source, team, shot.origin, shot.aim, d);
    NormalizedLengthIsSpeed(m, shot.aim, d.speed);
    SteppingFollowsPlan(m, scene, policy, vitals, SteppedFlight(m, d, shot.aim), shot.origin, p, shot.origin, 0.0, 0);
  }

  /**
   Flying a projectile out tick by tick deals the same zero-or-one damage outcome and leaves the
   same health as resolving its whole flight at once, for every aim and every delivery that
   `validateDamageDelivery` accepts, and for any speed when there is no falloff.
   */
  lemma SteppedFlightAgrees(m: Maths, scene: Scene, policy: Policy, vitals: Vitals,
                            id: ProjectileId, source: EntityId, team: Option<TeamId>, shot: Shot, d: DamageDelivery,
                            draws: Rng.Draws, cursor: nat)
    requires Lawful(m) && d.ProjectileDelivery? && d.ttlTicks >= 1 && (d.speed >= 0.0 || d.falloff.NoFalloff?)
    ensures var p := CreateProjectile(m, id, source, team, shot.origin, shot.aim, d);
            var plan := Plan(m, scene, d, shot, draws, cursor);
            && |plan| <= 1
            && Agree(Stepping(m, scene, policy, vitals, p),
                     ApplyHits(Impulse(m), vitals, scene.teams, DamageSource(Some(source), team), policy, plan))
  {
    var p := CreateProjectile(m, id, source, team, shot.origin, shot.aim, d);
    NormalizedLengthIsSpeed(m, shot.aim, d.speed);
    SteppingFollowsPlan(m, scene, policy, vitals, FlightOf(m, d, shot.aim), shot.origin, p, shot.origin, 0.0, 0);
  }

  // ----- the exact condition -----

  /** Two amounts do the same to a target: it cannot be hurt, or both leave it with the same health. */
  predicate SameEffect(vitals: Vitals, teams: map<EntityId, TeamId>, source: DamageSource, policy: Policy,
                       target: EntityId, a: real, b: real)
  {
    target in vitals && !vitals[target].IsDefeated()
    && policy(HitContext(source.entity, source.team, target, TeamOf(teams, target))) ==>
      ApplyDamageToHealth(vitals[target], a) == ApplyDamageToHealth(vitals[target], b)
  }

  lemma SameEffectIff(vitals: Vitals, teams: map<EntityId, TeamId>, source: DamageSource, policy: Policy,
                      target: EntityId, a: real, b: real)
    ensures SameEffect(vitals, teams, source, policy, target, a, b) <==>
            HitEntity(vitals, teams, target, a, source, policy) == HitEntity(vitals, teams, target, b, source, policy)
  {
    if target in vitals {
      ResolvedHealth(target, TeamOf(teams, target), vitals[target], a, source, policy);
      ResolvedHealth(target, TeamOf(teams, target), vitals[target], b, source, policy);
      assert vitals[target := ResolveDamage(target, TeamOf(teams, target), vitals[target], a, source,
                                            policy).health][target] ==
             ResolveDamage(target, TeamOf(teams, target), vitals[target], a, source, policy).health;
    }
  }

  lemma ResolvedHealth(target: EntityId, team: Option<TeamId>, health: Health, amount: real, source: DamageSource,
                       policy: Policy)
    ensures !health.IsDefeated() && policy(HitContext(source.entity, source.team, target, team)) ==>
              ResolveDamage(target, team, health, amount, source, policy).health == ApplyDamageToHealth(health, amount)
  {
  }

  /** Hits that differ in their amount alone agree exactly when the amounts have the same effect. */
  lemma AmountsAgreeIff(push: PlannedHit -> Knockback, vitals: Vitals, teams: map<EntityId, TeamId>,
                        source: DamageSource, policy: Policy, a: PlannedHit, b: PlannedHit)
    requires b == a.(amount := b.amount) && PushesByStrength(push)
    ensures Agree(ApplyHits(push, vitals, teams, source, policy, [a]),
                  ApplyHits(push, vitals, teams, source, policy, [b])) <==>
            SameEffect(vitals, teams, source, policy, a.target, a.amount, b.amount)
  {
    ApplyOneHit(push, vitals, teams, source, policy, a);
    ApplyOneHit(push, vitals, teams, source, policy, b);
    SameEffectIff(vitals, teams, source, policy, a.target, a.amount, b.amount);
    assert PushesAlike(push, a, b);
    assert LandHit(push, vitals, teams, source, policy,
                   a).outcomes[0] == HitEntity(vitals, teams, a.target, a.amount, source, policy).1;
    assert LandHit(push, vitals, teams, source, policy,
                   b).outcomes[0] == HitEntity(vitals, teams, b.target, b.amount, source, policy).1;
  }

  /** The damage of a delivery by the distance. */
  function DamageAt(d: DamageDelivery): real -> real
    requires d.ProjectileDelivery?
  {
    (along: real) => d.damage * EvaluateFalloff(d.falloff, along)
  }

  /** Nobody is struck on the first tick: it is blocked, or nobody comes within the radius. */
  ghost predicate FirstTickIsHarmless(m: Maths, scene: Scene, shot: Shot, d: DamageDelivery)
    requires d.ProjectileDelivery?
  {
    var to := AddVec(shot.origin, FlightOf(m, d, shot.aim).step);
    Blocked(scene.blockers, shot.origin, to, d.radius) || !SomebodyNear(m, scene, d.radius, shot.origin, to)
  }

  /** At a strike, counting distance by the signed speed or by its size has the same effect. */
  predicate SameEffectAt(scene: Scene, policy: Policy, vitals: Vitals, source: DamageSource, damageAt: real -> real,
                         speed: real, n: nat, s: Struck)
  {
    SameEffect(vitals, scene.teams, source, policy, s.entity, damageAt(Flown(Abs(speed), n) + s.along),
               damageAt(Flown(speed, n) + s.along))
  }

  ghost function SameEffectOn(scene: Scene, policy: Policy, vitals: Vitals, source: DamageSource,
                              damageAt: real -> real, speed: real): (nat, Struck) -> bool
  {
    (n: nat, s: Struck) => SameEffectAt(scene, policy, vitals, source, damageAt, speed, n, s)
  }

  /** So it is for the entity the flight strikes in its lifetime, if it strikes any. */
  ghost predicate CountsAlike(m: Maths, scene: Scene, policy: Policy, vitals: Vitals, source: DamageSource, shot: Shot,
                              d: DamageDelivery)
    requires d.ProjectileDelivery?
  {
    OnStrikes(StrikesOf(m, scene, FlightOf(m, d, shot.aim), shot.origin), d.ttlTicks,
              SameEffectOn(scene, policy, vitals, source, DamageAt(d), d.speed))
  }

  lemma ShortLifeAgreesIff(m: Maths, scene: Scene, policy: Policy, vitals: Vitals,
                           id: ProjectileId, source: EntityId, team: Option<TeamId>, shot: Shot, d: DamageDelivery,
                           draws: Rng.Draws, cursor: nat)
    requires Lawful(m) && Faithful(scene) && d.ProjectileDelivery? && d.ttlTicks < 1
    ensures var p := CreateProjectile(m, id, source, team, shot.origin, shot.aim, d);
            var whole := ApplyHits(Impulse(m), vitals, scene.teams, DamageSource(Some(source), team), policy,
                                   Plan(m, scene, d, shot, draws, cursor));
            Agree(Stepping(m, scene, policy, vitals, p), whole) <==> FirstTickIsHarmless(m, scene, shot, d)
  {
    var p := CreateProjectile(m, id, source, team, shot.origin, shot.aim, d);
    StepOutcomes(m, scene, policy, vitals, p);
    SweptHitIsNearestMet(m, scene, d.radius, shot.origin, AddVec(shot.origin, p.velocity), 0.0);
  }

  lemma LongLifeAgreesIff(m: Maths, scene: Scene, policy: Policy, vitals: Vitals,
                          id: ProjectileId, source: EntityId, team: Option<TeamId>, shot: Shot, d: DamageDelivery,
                          draws: Rng.Draws, cursor: nat)
    requires Lawful(m) && Faithful(scene) && d.ProjectileDelivery? && d.ttlTicks >= 1
    ensures var p := CreateProjectile(m, id, source, team, shot.origin, shot.aim, d);
            var whole := ApplyHits(Impulse(m), vitals, scene.teams, DamageSource(Some(source), team), policy,
                                   Plan(m, scene, d, shot, draws, cursor));
            Agree(Stepping(m, scene, policy, vitals, p), whole) <==>
            CountsAlike(m, scene, policy, vitals, DamageSource(Some(source), team), shot, d)
  {
    var hitOf := HitFrom(d.damage, d.falloff, d.knockback, shot.origin);
    var plan := Plan(m, scene, d, shot, draws, cursor);
    var stepped := PlanFlight(scene.blockers, SweepIn(m, scene, d.radius), SteppedFlight(m, d, shot.aim), hitOf,
                              shot.origin, 0.0, 0);
    SteppingFromCreation(m, scene, policy, vitals, id, source, team, shot, d);
    FlightHitsFirstMet(m, scene, d, shot, draws, cursor);
    PlanFlightObeysLaw(m, scene, SteppedFlight(m, d, shot.aim), hitOf, shot.origin, 0);
    DeliveryDealsBy(d, shot.origin);
    ImpulsePushesByStrength(m);
    var cause := DamageSource(Some(source), team);
    PlansAgreeIff(m, scene, policy, vitals, Impulse(m), cause, FlightOf(m, d, shot.aim), shot.origin, hitOf,
                  DamageAt(d), stepped, plan);
    AgreeingThrough(Stepping(m, scene, policy, vitals, CreateProjectile(m, id, source, team, shot.origin, shot.aim, d)),
                    ApplyHits(Impulse(m), vitals, scene.teams, cause, policy, stepped),
                    ApplyHits(Impulse(m), vitals, scene.teams, cause, policy, plan));
  }

  /** What a hit deals depends on the distance by `damageAt` and on nothing else. */
  ghost predicate DealsBy(hitOf: Struck -> PlannedHit, damageAt: real -> real)
  {
    forall s: Struck, u, v :: DealsByAt(hitOf, damageAt, s, u, v)
  }

  ghost predicate DealsByAt(hitOf: Struck -> PlannedHit, damageAt: real -> real, s: Struck, u: real, v: real)
  {
    var a, b := hitOf(s.(along := u)), hitOf(s.(along := v));
    a.target == s.entity && a.amount == damageAt(u) && b == a.(amount := damageAt(v))
  }

  lemma DeliveryDealsBy(d: DamageDelivery, origin: Vec2)
    requires d.ProjectileDelivery?
    ensures DealsBy(HitFrom(d.damage, d.falloff, d.knockback, origin), DamageAt(d))
  {
    var hitOf, damageAt := HitFrom(d.damage, d.falloff, d.knockback, origin), DamageAt(d);
    forall s: Struck, u, v ensures DealsByAt(hitOf, damageAt, s, u, v) {
      HitAtDistance(d, origin, s, u);
      HitAtDistance(d, origin, s, v);
    }
  }

  lemma HitAtDistance(d: DamageDelivery, origin: Vec2, s: Struck, along: real)
    requires d.ProjectileDelivery?
    ensures HitFrom(d.damage, d.falloff, d.knockback, origin)(s.(along := along)) ==
            PlannedHit(s.entity, DamageAt(d)(along), SubVec(s.position, origin), d.knockback)
  {
  }

  /** The plans of one strike agree exactly when the two counts have the same effect there. */
  lemma StrikesAgreeIff(scene: Scene, policy: Policy, vitals: Vitals, push: PlannedHit -> Knockback,
                        source: DamageSource, damageAt: real -> real, speed: real,
                        n: nat, s: Struck, a: PlannedHit, b: PlannedHit)
    requires PushesByStrength(push) && a.target == s.entity && a.amount == damageAt(Flown(Abs(speed), n) + s.along)
    requires b == a.(amount := damageAt(Flown(speed, n) + s.along))
    ensures Agree(ApplyHits(push, vitals, scene.teams, source, policy, [a]),
                  ApplyHits(push, vitals, scene.teams, source, policy, [b])) <==>
            SameEffectAt(scene, policy, vitals, source, damageAt, speed, n, s)
  {
    AmountsAgreeIff(push, vitals, scene.teams, source, policy, a, b);
  }

  lemma TestIs(scene: Scene, policy: Policy, vitals: Vitals, source: DamageSource, damageAt: real -> real, speed: real,
               n: nat, s: Struck)
    ensures SameEffectOn(scene, policy, vitals, source, damageAt,
                         speed)(n, s) == SameEffectAt(scene, policy, vitals, source, damageAt, speed, n, s)
  {
  }

  /** The hits that the two counts plan for one strike. */
  lemma StruckHits(m: Maths, scene: Scene, f: Flight, size: real, hitOf: Struck -> PlannedHit, damageAt: real -> real,
                   origin: Vec2,
                   a: seq<PlannedHit>, b: seq<PlannedHit>, n: nat, s: Struck)
    requires DealsBy(hitOf, damageAt)
    requires HitsAt(m, scene, f.(speed := size), hitOf, origin, a, n, s) && HitsAt(m, scene, f, hitOf, origin, b, n, s)
    ensures |a| == 1 && |b| == 1 && a[0].target == s.entity && a[0].amount == damageAt(Flown(size, n) + s.along)
    ensures b[0] == a[0].(amount := damageAt(Flown(f.speed, n) + s.along))
  {
    assert DealsByAt(hitOf, damageAt, s, Flown(size, n) + s.along, Flown(f.speed, n) + s.along);
  }

  lemma PlansAgreeIff(m: Maths, scene: Scene, policy: Policy, vitals: Vitals, push: PlannedHit -> Knockback,
                      source: DamageSource, f: Flight, origin: Vec2,
                      hitOf: Struck -> PlannedHit, damageAt: real -> real, a: seq<PlannedHit>, b: seq<PlannedHit>)
    requires DealsBy(hitOf, damageAt) && PushesByStrength(push)
    requires FlightLaw(m, scene, f.(speed := Abs(f.speed)), hitOf, origin, a)
    requires FlightLaw(m, scene, f, hitOf, origin, b)
    ensures Agree(ApplyHits(push, vitals, scene.teams, source, policy, a),
                  ApplyHits(push, vitals, scene.teams, source, policy, b)) <==>
            OnStrikes(StrikesOf(m, scene, f, origin), f.ttlTicks,
                      SameEffectOn(scene, policy, vitals, source, damageAt, f.speed))
  {
    var n, s := TwoCounts(m, scene, f, Abs(f.speed), hitOf, origin, a, b);
    if a == [] {
      NeverMeansAlways(m, scene, f, origin, SameEffectOn(scene, policy, vitals, source, damageAt, f.speed));
    } else {
      StruckPlansAgreeIff(m, scene, policy, vitals, push, source, f, origin, hitOf, damageAt, a, b, n, s);
    }
  }

  lemma StruckPlansAgreeIff(m: Maths, scene: Scene, policy: Policy, vitals: Vitals, push: PlannedHit -> Knockback,
                            source: DamageSource, f: Flight, origin: Vec2,
                            hitOf: Struck -> PlannedHit, damageAt: real -> real, a: seq<PlannedHit>,
                            b: seq<PlannedHit>, n: nat, s: Struck)
    requires DealsBy(hitOf, damageAt) && PushesByStrength(push)
    requires HitsAt(m, scene, f.(speed := Abs(f.speed)), hitOf, origin, a, n, s)
    requires HitsAt(m, scene, f, hitOf, origin, b, n, s)
    ensures Agree(ApplyHits(push, vitals, scene.teams, source, policy, a),
                  ApplyHits(push, vitals, scene.teams, source, policy, b)) <==>
            OnStrikes(StrikesOf(m, scene, f, origin), f.ttlTicks,
                      SameEffectOn(scene, policy, vitals, source, damageAt, f.speed))
  {
    var test := SameEffectOn(scene, policy, vitals, source, damageAt, f.speed);
    StruckHits(m, scene, f, Abs(f.speed), hitOf, damageAt, origin, a, b, n, s);
    OnTheOneStrike(m, scene, f, origin, f.ttlTicks, test, n, s);
    SingleHitsAgreeIff(scene, policy, vitals, push, source, damageAt, f.speed, n, s, a, b, test);
  }

  lemma SingleHitsAgreeIff(scene: Scene, policy: Policy, vitals: Vitals, push: PlannedHit -> Knockback,
                           source: DamageSource, damageAt: real -> real, speed: real,
                           n: nat, s: Struck, a: seq<PlannedHit>, b: seq<PlannedHit>, test: (nat, Struck) -> bool)
    requires PushesByStrength(push)
    requires |a| == 1 && |b| == 1 && a[0].target == s.entity && a[0].amount == damageAt(Flown(Abs(speed), n) + s.along)
    requires b[0] == a[0].(amount := damageAt(Flown(speed, n) + s.along))
    requires test == SameEffectOn(scene, policy, vitals, source, damageAt, speed)
    ensures test(n, s) <==>
            Agree(ApplyHits(push, vitals, scene.teams, source, policy, a),
                  ApplyHits(push, vitals, scene.teams, source, policy, b))
  {
    TestIs(scene, policy, vitals, source, damageAt, speed, n, s);
    assert a == [a[0]] && b == [b[0]];
    StrikesAgreeIff(scene, policy, vitals, push, source, damageAt, speed, n, s, a[0], b[0]);
  }

  /**
   Whatever the delivery, stepping agrees with the whole flight exactly when, for a lifetime below
   one tick, the first tick strikes nobody, and otherwise when counting distance by the speed or
   by its size has the same effect on the entity struck.
   */
  lemma SteppedFlightIsWholeFlight(m: Maths, scene: Scene, policy: Policy, vitals: Vitals,
                                   id: ProjectileId, source: EntityId, team: Option<TeamId>, shot: Shot,
                                   d: DamageDelivery, draws: Rng.Draws, cursor: nat)
    requires Lawful(m) && Faithful(scene) && d.ProjectileDelivery?
    ensures var p := CreateProjectile(m, id, source, team, shot.origin, shot.aim, d);
            var whole := ApplyHits(Impulse(m), vitals, scene.teams, DamageSource(Some(source), team), policy,
                                   Plan(m, scene, d, shot, draws, cursor));
            Agree(Stepping(m, scene, policy, vitals, p), whole) <==>
            if d.ttlTicks < 1 then FirstTickIsHarmless(m, scene, shot, d)
            else CountsAlike(m, scene, policy, vitals, DamageSource(Some(source), team), shot, d)
  {
    if d.ttlTicks < 1 {
      ShortLifeAgreesIff(m, scene, policy, vitals, id, source, team, shot, d, draws, cursor);
    } else {
      LongLifeAgreesIff(m, scene, policy, vitals, id, source, team, shot, d, draws, cursor);
    }
  }

  // ----- the step in its own form -----

  /** The tick of one projectile as the orchestrator drives it. */
  method AdvanceProjectile(m: Maths, view: View, p: Projectile, policy: Policy)
      returns (alive: Option<Projectile>, events: seq<ProjectileEvent>, knockbacks: seq<Knockback>)
    requires view.world.Valid()
    modifies view.world
    ensures view.world.Valid() && view.world.roster == old(view.world.roster)
    ensures StepResult(alive, view.world.vitals, events,
                       knockbacks) == Step(m, old(view.SceneOf()), policy, old(view.world.vitals), p)
  {
    ghost var scene := view.SceneOf();
    ghost var sweep := SweepIn(m, scene, p.radius);
    assert SweepFollows(m, scene, p.radius, sweep);
    alive, events, knockbacks := AdvanceOver(m, Impulse(m), view, p, policy, scene, sweep);
  }

  method AdvanceOver(m: Maths, push: PlannedHit -> Knockback, view: View, p: Projectile, policy: Policy,
                     ghost scene: Scene, ghost sweep: Sweeper)
                         returns (alive: Option<Projectile>, events: seq<ProjectileEvent>, knockbacks: seq<Knockback>)
    requires view.world.Valid() && view.SceneOf() == scene && SweepFollows(m, scene, p.radius, sweep)
    modifies view.world
    ensures view.world.Valid() && view.world.roster == old(view.world.roster)
    ensures StepResult(alive, view.world.vitals, events, knockbacks) ==
            Play(push, scene.teams, policy, old(view.world.vitals), p, MoveOf(m, scene.blockers, sweep, p))
  {
    var to := AddVec(p.position, p.velocity);
    var blocked := ProjectileBlocked(view.world.blockers, p.position, to, p.radius);
    if blocked {
      return None, [ProjectileExpired(p.id, Stopped, to)], [];
    }
    var hit := FindSwept(m, view, p.radius, p.position, to, p.travelled, scene, sweep);
    if hit.Some? {
      var blow := StrikeOf(p, hit.value);
      var outcome := view.ApplyDamage(blow.target, blow.amount, ProjectileSource(p), policy);
      knockbacks := KnockbackOf(push, blow, outcome);
      return None, [ProjectileDamage(outcome), ProjectileExpired(p.id, Hit, hit.value.position)], knockbacks;
    }
    var ttl := p.ttlRemaining - 1;
    if ttl <= 0 {
      return None, [ProjectileMoved(p.id, to), ProjectileExpired(p.id, Ttl, to)], [];
    }
    var next := p.(position := to, ttlRemaining := ttl, travelled := p.travelled + VecLength(m, p.velocity));
    return Some(next), [ProjectileMoved(p.id, to)], [];
  }
}
