/**
 The damage-delivery families (packages/simulation/src/delivery.ts). What a delivery does
 is split in two: the hits it plans, which depend only on geometry and entropy, and their
 application to vitality. The resolvers interleave the two; they are proved to agree.
 */
module Delivery {
  import opened Wrappers
  import opened Sorting
  import opened Geometry
  import opened Damage
  import opened World
  import opened Targeting
  import opened Rng

  datatype Falloff =
    | NoFalloff
    | LinearFalloff(startDistance: real, endDistance: real, minMultiplier: real)

  function EvaluateFalloff(falloff: Falloff, distance: real): real
  {
    match falloff
    case NoFalloff => 1.0
    case LinearFalloff(start, end, minMultiplier) =>
      var floor := Min(1.0, Max(0.0, minMultiplier));
      if distance <= start then 1.0
      else if distance >= end then floor
      else 1.0 - (distance - start) / (end - start) * (1.0 - floor)
  }

  datatype DamageDelivery =
    | HitscanDelivery(damage: real, range: real, hitRadius: real, falloff: Falloff, knockback: real)
    | BeamDelivery(damage: real, range: real, hitRadius: real, falloff: Falloff, knockback: real)
    | ProjectileDelivery(damage: real, speed: real, ttlTicks: int, radius: real, falloff: Falloff, knockback: real)
    | PelletDelivery(damage: real, pelletCount: int, range: real, hitRadius: real, spread: real, falloff: Falloff,
                     knockback: real)
    | ChargeDelivery(minDamage: real, maxDamage: real, chargeTicks: int, range: real, hitRadius: real,
                     falloff: Falloff, knockback: real)
    | BounceDelivery(damage: real, range: real, hitRadius: real, maxBounces: int, falloff: Falloff, knockback: real)
    | PierceDelivery(damage: real, range: real, hitRadius: real, maxTargets: int, falloff: Falloff, knockback: real)
    | ExplosiveDelivery(damage: real, radius: real, falloff: Falloff, knockback: real, requiresLineOfSight: bool)
    | MeleeDelivery(damage: real, range: real, arc: real, knockback: real)

  datatype Shot = Shot(origin: Vec2, aim: Vec2, heldTicks: Option<int>)

  datatype PlannedHit = PlannedHit(target: EntityId, amount: real, direction: Vec2, knockback: real)

  // ----- planning -----

  /** The hit landed on a struck target by a shot from `origin`. */
  function HitFrom(damage: real, falloff: Falloff, knockback: real, origin: Vec2): Struck -> PlannedHit
  {
    (s: Struck) => PlannedHit(s.entity, damage * EvaluateFalloff(falloff, s.along), SubVec(s.position, origin),
                              knockback)
  }

  /** Targets near the ray, sorted along it. */
  function RayStruck(m: Maths, scene: Scene, origin: Vec2, direction: Vec2, range: real, hitRadius: real): seq<Struck>
  {
    SortBy(StruckBy(m, scene, Ray(origin, direction, range, hitRadius)), NotAfter)
  }

  /** The first target in line of sight. */
  ghost function PlanRay(blockers: seq<Blocker>, origin: Vec2, hitOf: Struck -> PlannedHit,
                         struck: seq<Struck>): seq<PlannedHit>
  {
    if struck == [] then []
    else if Blocked(blockers, origin, struck[0].position, 0.0) then PlanRay(blockers, origin, hitOf, struck[1..])
    else [hitOf(struck[0])]
  }

  /** Targets in line until one is shielded or enough are hit. */
  ghost function PlanPierce(blockers: seq<Blocker>, origin: Vec2, hitOf: Struck -> PlannedHit, maxTargets: int,
                            struck: seq<Struck>, hits: int): seq<PlannedHit>
    decreases struck
  {
    if struck == [] || Blocked(blockers, origin, struck[0].position, 0.0) then []
    else
      [hitOf(struck[0])]
      + if hits + 1 >= maxTargets then [] else PlanPierce(blockers, origin, hitOf, maxTargets, struck[1..], hits + 1)
  }

  function PelletDirection(m: Maths, shot: Shot, spread: real, u: real): Vec2
  {
    RotateVec(m, NormalizeVec(m, shot.aim), (u * 2.0 - 1.0) * (spread / 2.0))
  }

  /** What one pellet hits, by the position of the draw that jitters it. */
  ghost function PelletHits(m: Maths, scene: Scene, d: DamageDelivery, shot: Shot, draws: Draws): nat -> seq<PlannedHit>
    requires d.PelletDelivery?
  {
    (cursor: nat) =>
      var direction := PelletDirection(m, shot, d.spread, FloatAt(draws, cursor));
      PlanRay(scene.blockers, shot.origin, HitFrom(d.damage, d.falloff, d.knockback, shot.origin),
              RayStruck(m, scene, shot.origin, direction, d.range, d.hitRadius))
  }

  /** One jittered ray per pellet, each drawing one float. */
  ghost function PlanPellets(pelletHits: nat -> seq<PlannedHit>, pelletCount: int, cursor: nat,
                             pellet: int): seq<PlannedHit>
    decreases pelletCount - pellet
  {
    if pellet >= pelletCount then []
    else pelletHits(cursor) + PlanPellets(pelletHits, pelletCount, cursor + 1, pellet + 1)
  }

  function ChargeProgress(heldTicks: Option<int>, chargeTicks: int): real
  {
    if heldTicks.None? || chargeTicks <= 0 then 1.0
    else Min(1.0, Max(0.0, heldTicks.value as real / chargeTicks as real))
  }

  function ChargeDamage(d: DamageDelivery, heldTicks: Option<int>): real
    requires d.ChargeDelivery?
  {
    d.minDamage + (d.maxDamage - d.minDamage) * ChargeProgress(heldTicks, d.chargeTicks)
  }

  /** A swept body in flight: its radius, its travel per tick and its lifetime. */
  datatype Flight = Flight(radius: real, step: Vec2, speed: real, ttlTicks: int)

  /** The hit of one tick of flight, measured from the start of the flight. */
  function SweptHit(m: Maths, scene: Scene, radius: real, from: Vec2, to: Vec2, travelled: real): Option<Struck>
  {
    match NearestFrom(None, StruckBy(m, scene, Sweep(from, to, radius)))
    case None => None
    case Some(s) => Some(s.(along := travelled + s.along))
  }

  /** How one tick of flight searches for a body: from, to and distance so far. */
  type Sweeper = (Vec2, Vec2, real) -> Option<Struck>

  function SweepIn(m: Maths, scene: Scene, radius: real): Sweeper
  {
    (from: Vec2, to: Vec2, travelled: real) => SweptHit(m, scene, radius, from, to, travelled)
  }

  /** The rest of a flight from `current` in its tick `tick`: stopped by geometry, the first body, or age. */
  ghost function PlanFlight(blockers: seq<Blocker>, sweep: Sweeper, f: Flight, hitOf: Struck -> PlannedHit,
                            current: Vec2, travelled: real, tick: int): seq<PlannedHit>
    decreases f.ttlTicks - tick
  {
    if tick >= f.ttlTicks then []
    else
      var next := AddVec(current, f.step);
      if Blocked(blockers, current, next, f.radius) then []
      else
        match sweep(current, next, travelled)
        case Some(s) => [hitOf(s)]
        case None => PlanFlight(blockers, sweep, f, hitOf, next, travelled + f.speed, tick + 1)
  }

  function FlightOf(m: Maths, d: DamageDelivery, aim: Vec2): Flight
    requires d.ProjectileDelivery?
  {
    Flight(d.radius, ScaleVec(NormalizeVec(m, aim), d.speed), d.speed, d.ttlTicks)
  }

  /** A projectile-stopping blocker replaces the contact found so far only by being met strictly sooner. */
  function BetterEntry(best: Option<BoxEntry>, blocker: Blocker, from: Vec2, to: Vec2): Option<BoxEntry>
  {
    var entry := AabbEntry(from, to, blocker.box);
    if blocker.blocksProjectiles && entry.Some? && (best.None? || entry.value.t < best.value.t) then entry else best
  }

  /** The contact found by going through the blockers in order. */
  function NearestEntry(best: Option<BoxEntry>, blockers: seq<Blocker>, from: Vec2, to: Vec2): Option<BoxEntry>
    decreases blockers
  {
    if blockers == [] then best else NearestEntry(BetterEntry(best, blockers[0], from, to), blockers[1..], from, to)
  }

  const NUDGE := 0.000001

  /** A wall is met before the target: division by a zero budget never says so. */
  predicate BeyondWall(along: real, remaining: real, wall: Option<BoxEntry>)
  {
    wall.Some? && remaining != 0.0 && along / remaining > wall.value.t
  }

  /** One straight part of a bouncing shot. */
  datatype Leg = Leg(origin: Vec2, direction: Vec2, remaining: real)

  function LegEnd(leg: Leg): Vec2
  {
    AddVec(leg.origin, ScaleVec(leg.direction, leg.remaining))
  }

  /** The leg after reflecting off a wall, nudged off its surface. */
  function NextLeg(m: Maths, leg: Leg, wall: BoxEntry): Leg
  {
    var hitPoint := AddVec(leg.origin, ScaleVec(SubVec(LegEnd(leg), leg.origin), wall.t));
    var reflected := NormalizeVec(m, ReflectVec(leg.direction, wall.normal));
    Leg(AddVec(hitPoint, ScaleVec(reflected, NUDGE)), reflected, leg.remaining - leg.remaining * wall.t)
  }

  function LegStruck(m: Maths, scene: Scene, leg: Leg, hitRadius: real): seq<Struck>
  {
    RayStruck(m, scene, leg.origin, leg.direction, leg.remaining, hitRadius)
  }

  ghost function PlanBounces(m: Maths, scene: Scene, d: DamageDelivery, leg: Leg, bounce: int): seq<PlannedHit>
    requires d.BounceDelivery?
    decreases d.maxBounces - bounce
  {
    if bounce > d.maxBounces then []
    else
      var wall := NearestEntry(None, scene.blockers, leg.origin, LegEnd(leg));
      var struck := LegStruck(m, scene, leg, d.hitRadius);
      if struck != [] && !BeyondWall(struck[0].along, leg.remaining, wall) then
        [HitFrom(d.damage, d.falloff, d.knockback, leg.origin)(struck[0])]
      else if wall.None? then []
      else
        var next := NextLeg(m, leg, wall.value);
        if next.remaining <= 0.0 then [] else PlanBounces(m, scene, d, next, bounce + 1)
  }

  /** Everyone struck, in id order, except those shielded when sight is required. */
  ghost function PlanArea(blockers: seq<Blocker>, origin: Vec2, hitOf: Struck -> PlannedHit, sight: bool,
                          struck: seq<Struck>): seq<PlannedHit>
  {
    if struck == [] then []
    else
      (if sight && Blocked(blockers, origin, struck[0].position, 0.0) then [] else [hitOf(struck[0])])
      + PlanArea(blockers, origin, hitOf, sight, struck[1..])
  }

  /** A swing lands its full damage, pushing along the aim when on top of the target. */
  function SwingFrom(damage: real, knockback: real, origin: Vec2, aim: Vec2): Struck -> PlannedHit
  {
    (s: Struck) => PlannedHit(s.entity, damage, if s.along > 0.0 then SubVec(s.position, origin) else aim, knockback)
  }

  /** The single-target line-of-sight families. */
  ghost function PlanSingleRay(m: Maths, scene: Scene, shot: Shot, damage: real, range: real, hitRadius: real,
                               falloff: Falloff, knockback: real): seq<PlannedHit>
  {
    PlanRay(scene.blockers, shot.origin, HitFrom(damage, falloff, knockback, shot.origin),
            RayStruck(m, scene, shot.origin, shot.aim, range, hitRadius))
  }

  /** The hits a fired delivery lands, in order. */
  ghost function Plan(m: Maths, scene: Scene, delivery: DamageDelivery, shot: Shot, draws: Draws,
                      cursor: nat): seq<PlannedHit>
  {
    var origin := shot.origin;
    match delivery
    case HitscanDelivery(damage, range, hitRadius, falloff, knockback) =>
      PlanSingleRay(m, scene, shot, damage, range, hitRadius, falloff, knockback)
    case BeamDelivery(damage, range, hitRadius, falloff, knockback) =>
      PlanSingleRay(m, scene, shot, damage, range, hitRadius, falloff, knockback)
    case ProjectileDelivery(damage, _, _, _, falloff, knockback) =>
      PlanFlight(scene.blockers, SweepIn(m, scene, delivery.radius), FlightOf(m, delivery, shot.aim),
                 HitFrom(damage, falloff, knockback, origin), origin, 0.0, 0)
    case PelletDelivery(_, _, _, _, _, _, _) =>
      PlanPellets(PelletHits(m, scene, delivery, shot, draws), delivery.pelletCount, cursor, 0)
    case ChargeDelivery(_, _, _, range, hitRadius, falloff, knockback) =>
      PlanSingleRay(m, scene, shot, ChargeDamage(delivery, shot.heldTicks), range, hitRadius, falloff, knockback)
    case BounceDelivery(_, range, _, _, _, _) =>
      PlanBounces(m, scene, delivery, Leg(origin, NormalizeVec(m, shot.aim), range), 0)
    case PierceDelivery(damage, range, hitRadius, maxTargets, falloff, knockback) =>
      PlanPierce(scene.blockers, origin, HitFrom(damage, falloff, knockback, origin), maxTargets,
                 RayStruck(m, scene, origin, shot.aim, range, hitRadius), 0)
    case ExplosiveDelivery(damage, radius, falloff, knockback, sight) =>
      PlanArea(scene.blockers, origin, HitFrom(damage, falloff, knockback, origin), sight,
               StruckBy(m, scene, Blast(origin, radius)))
    case MeleeDelivery(damage, range, arc, knockback) =>
      var aim := NormalizeVec(m, shot.aim);
      PlanArea(scene.blockers, origin, SwingFrom(damage, knockback, origin, aim), false,
               StruckBy(m, scene, Swing(origin, aim, range, arc / 2.0)))
  }

  /** How many floats resolving a delivery draws. */
  function FloatsDrawn(delivery: DamageDelivery): nat
  {
    if delivery.PelletDelivery? && delivery.pelletCount > 0 then delivery.pelletCount else 0
  }

  // ----- the index never changes a plan -----

  lemma RayStruckSame(m: Maths, scene: Scene, origin: Vec2, direction: Vec2, range: real, hitRadius: real)
    requires Lawful(m) && Faithful(scene)
    ensures RayStruck(m, scene, origin, direction, range, hitRadius) ==
            RayStruck(m, WithoutIndex(scene), origin, direction, range, hitRadius)
  {
    IndexReachesTheSame(m, scene, Ray(origin, direction, range, hitRadius));
  }

  lemma {:induction false} PelletsAgree(a: nat -> seq<PlannedHit>, b: nat -> seq<PlannedHit>, pelletCount: int,
                                        cursor: nat, pellet: int)
    requires forall i :: a(i) == b(i)
    ensures PlanPellets(a, pelletCount, cursor, pellet) == PlanPellets(b, pelletCount, cursor, pellet)
    decreases pelletCount - pellet
  {
    if pellet < pelletCount {
      PelletsAgree(a, b, pelletCount, cursor + 1, pellet + 1);
    }
  }

  lemma PelletsIgnoreIndex(m: Maths, scene: Scene, d: DamageDelivery, shot: Shot, draws: Draws, cursor: nat)
    requires Lawful(m) && Faithful(scene) && d.PelletDelivery?
    ensures PlanPellets(PelletHits(m, scene, d, shot, draws), d.pelletCount, cursor, 0) ==
            PlanPellets(PelletHits(m, WithoutIndex(scene), d, shot, draws), d.pelletCount, cursor, 0)
  {
    var a, b := PelletHits(m, scene, d, shot, draws), PelletHits(m, WithoutIndex(scene), d, shot, draws);
    forall i: nat ensures a(i) == b(i) {
      RayStruckSame(m, scene, shot.origin, PelletDirection(m, shot, d.spread, FloatAt(draws, i)), d.range, d.hitRadius);
    }
    PelletsAgree(a, b, d.pelletCount, cursor, 0);
  }

  lemma SweptHitIgnoresIndex(m: Maths, scene: Scene, radius: real, from: Vec2, to: Vec2, travelled: real)
    requires Lawful(m) && Faithful(scene)
    ensures SweptHit(m, scene, radius, from, to,
                     travelled) == SweptHit(m, WithoutIndex(scene), radius, from, to, travelled)
  {
    IndexReachesTheSame(m, scene, Sweep(from, to, radius));
  }

  lemma {:induction false} SweepersAgree(blockers: seq<Blocker>, a: Sweeper, b: Sweeper, f: Flight,
      hitOf: Struck -> PlannedHit, current: Vec2, travelled: real, tick: int)
    requires forall from, to, along :: a(from, to, along) == b(from, to, along)
    ensures PlanFlight(blockers, a, f, hitOf, current, travelled,
                       tick) == PlanFlight(blockers, b, f, hitOf, current, travelled, tick)
    decreases f.ttlTicks - tick
  {
    if tick < f.ttlTicks {
      SweepersAgree(blockers, a, b, f, hitOf, AddVec(current, f.step), travelled + f.speed, tick + 1);
    }
  }

  lemma FlightIgnoresIndex(m: Maths, scene: Scene, f: Flight, hitOf: Struck -> PlannedHit, origin: Vec2)
    requires Lawful(m) && Faithful(scene)
    ensures PlanFlight(scene.blockers, SweepIn(m, scene, f.radius), f, hitOf, origin, 0.0, 0) ==
            PlanFlight(scene.blockers, SweepIn(m, WithoutIndex(scene), f.radius), f, hitOf, origin, 0.0, 0)
  {
    var a, b := SweepIn(m, scene, f.radius), SweepIn(m, WithoutIndex(scene), f.radius);
    forall from, to, along ensures a(from, to, along) == b(from, to, along) {
      SweptHitIgnoresIndex(m, scene, f.radius, from, to, along);
    }
    SweepersAgree(scene.blockers, a, b, f, hitOf, origin, 0.0, 0);
  }

  lemma {:induction false} BouncesIgnoreIndex(m: Maths, scene: Scene, d: DamageDelivery, leg: Leg, bounce: int)
    requires Lawful(m) && Faithful(scene) && d.BounceDelivery?
    ensures PlanBounces(m, scene, d, leg, bounce) == PlanBounces(m, WithoutIndex(scene), d, leg, bounce)
    decreases d.maxBounces - bounce
  {
    if bounce <= d.maxBounces {
      var wall := NearestEntry(None, scene.blockers, leg.origin, LegEnd(leg));
      RayStruckSame(m, scene, leg.origin, leg.direction, leg.remaining, d.hitRadius);
      if wall.Some? {
        BouncesIgnoreIndex(m, scene, d, NextLeg(m, leg, wall.value), bounce + 1);
      }
    }
  }

  /** For every delivery family, any faithful index plans exactly the hits of the full scan. */
  lemma PlanIgnoresIndex(m: Maths, scene: Scene, delivery: DamageDelivery, shot: Shot, draws: Draws, cursor: nat)
    requires Lawful(m) && Faithful(scene)
    ensures Plan(m, scene, delivery, shot, draws, cursor) == Plan(m, WithoutIndex(scene), delivery, shot, draws, cursor)
  {
    match delivery
    case ProjectileDelivery(damage, _, _, _, falloff, knockback) =>
      FlightIgnoresIndex(m, scene, FlightOf(m, delivery, shot.aim), HitFrom(damage, falloff, knockback, shot.origin),
                         shot.origin);
    case PelletDelivery(_, _, _, _, _, _, _) =>
      PelletsIgnoreIndex(m, scene, delivery, shot, draws, cursor);
    case BounceDelivery(_, range, _, _, _, _) =>
      BouncesIgnoreIndex(m, scene, delivery, Leg(shot.origin, NormalizeVec(m, shot.aim), range), 0);
    case ExplosiveDelivery(_, radius, _, _, _) =>
      IndexReachesTheSame(m, scene, Blast(shot.origin, radius));
    case MeleeDelivery(_, range, arc, _) =>
      IndexReachesTheSame(m, scene, Swing(shot.origin, NormalizeVec(m, shot.aim), range, arc / 2.0));
    case _ =>
      RayStruckSame(m, scene, shot.origin, shot.aim, delivery.range, delivery.hitRadius);
  }

  // ----- only enumerated entities are ever hit -----

  ghost predicate Targets(hits: seq<PlannedHit>, entities: seq<EntityId>)
  {
    forall h :: h in hits ==> h.target in entities
  }

  ghost predicate StruckAmong(struck: seq<Struck>, entities: seq<EntityId>)
  {
    forall s :: s in struck ==> s.entity in entities
  }

  lemma StruckAreEntities(m: Maths, scene: Scene, probe: Probe)
    requires scene.index.None?
    ensures StruckAmong(StruckBy(m, scene, probe), scene.entities)
    ensures StruckAmong(SortBy(StruckBy(m, scene, probe), NotAfter), scene.entities)
  {
    AcceptMembers(Test(m, probe), scene.positions, scene.entities);
    SortMultiset(StruckBy(m, scene, probe), NotAfter);
  }

  /** `hitOf` aims its hit at the struck entity. */
  ghost predicate Aimed(hitOf: Struck -> PlannedHit)
  {
    forall s :: hitOf(s).target == s.entity
  }

  lemma {:induction false} RayTargets(blockers: seq<Blocker>, origin: Vec2, hitOf: Struck -> PlannedHit,
                                      struck: seq<Struck>, entities: seq<EntityId>)
    requires Aimed(hitOf) && StruckAmong(struck, entities)
    ensures Targets(PlanRay(blockers, origin, hitOf, struck), entities)
  {
    if struck != [] {
      RayTargets(blockers, origin, hitOf, struck[1..], entities);
    }
  }

  lemma {:induction false} PierceTargets(blockers: seq<Blocker>, origin: Vec2, hitOf: Struck -> PlannedHit,
      maxTargets: int, struck: seq<Struck>, hits: int, entities: seq<EntityId>)
    requires Aimed(hitOf) && StruckAmong(struck, entities)
    ensures Targets(PlanPierce(blockers, origin, hitOf, maxTargets, struck, hits), entities)
    decreases struck
  {
    if struck != [] {
      PierceTargets(blockers, origin, hitOf, maxTargets, struck[1..], hits + 1, entities);
    }
  }

  lemma {:induction false} AreaTargets(blockers: seq<Blocker>, origin: Vec2, hitOf: Struck -> PlannedHit, sight: bool,
                                       struck: seq<Struck>, entities: seq<EntityId>)
    requires Aimed(hitOf) && StruckAmong(struck, entities)
    ensures Targets(PlanArea(blockers, origin, hitOf, sight, struck), entities)
  {
    if struck != [] {
      AreaTargets(blockers, origin, hitOf, sight, struck[1..], entities);
    }
  }

  lemma {:induction false} PelletsTarget(pelletHits: nat -> seq<PlannedHit>, pelletCount: int, cursor: nat,
      pellet: int, entities: seq<EntityId>)
    requires forall i :: Targets(pelletHits(i), entities)
    ensures Targets(PlanPellets(pelletHits, pelletCount, cursor, pellet), entities)
    decreases pelletCount - pellet
  {
    if pellet < pelletCount {
      PelletsTarget(pelletHits, pelletCount, cursor + 1, pellet + 1, entities);
    }
  }

  lemma PelletTargets(m: Maths, scene: Scene, d: DamageDelivery, shot: Shot, draws: Draws, cursor: nat)
    requires d.PelletDelivery? && scene.index.None?
    ensures Targets(PelletHits(m, scene, d, shot, draws)(cursor), scene.entities)
  {
    var direction := PelletDirection(m, shot, d.spread, FloatAt(draws, cursor));
    StruckAreEntities(m, scene, Ray(shot.origin, direction, d.range, d.hitRadius));
    RayTargets(scene.blockers, shot.origin, HitFrom(d.damage, d.falloff, d.knockback, shot.origin),
               RayStruck(m, scene, shot.origin, direction, d.range, d.hitRadius), scene.entities);
  }

  lemma SweptHitIsEntity(m: Maths, scene: Scene, radius: real, from: Vec2, to: Vec2, travelled: real)
    requires scene.index.None?
    ensures SweptHit(m, scene, radius, from, to, travelled).Some? ==>
              SweptHit(m, scene, radius, from, to, travelled).value.entity in scene.entities
  {
    StruckAreEntities(m, scene, Sweep(from, to, radius));
    NearestFromIsLeast(None, StruckBy(m, scene, Sweep(from, to, radius)));
  }

  lemma {:induction false} FlightTargets(blockers: seq<Blocker>, sweep: Sweeper, f: Flight,
      hitOf: Struck -> PlannedHit, current: Vec2, travelled: real, tick: int, entities: seq<EntityId>)
    requires Aimed(hitOf)
    requires forall from, to, along :: sweep(from, to, along).Some? ==> sweep(from, to, along).value.entity in entities
    ensures Targets(PlanFlight(blockers, sweep, f, hitOf, current, travelled, tick), entities)
    decreases f.ttlTicks - tick
  {
    if tick < f.ttlTicks {
      FlightTargets(blockers, sweep, f, hitOf, AddVec(current, f.step), travelled + f.speed, tick + 1, entities);
    }
  }

  lemma {:induction false} BouncesTarget(m: Maths, scene: Scene, d: DamageDelivery, leg: Leg, bounce: int)
    requires d.BounceDelivery? && scene.index.None?
    ensures Targets(PlanBounces(m, scene, d, leg, bounce), scene.entities)
    decreases d.maxBounces - bounce
  {
    if bounce <= d.maxBounces {
      StruckAreEntities(m, scene, Ray(leg.origin, leg.direction, leg.remaining, d.hitRadius));
      var wall := NearestEntry(None, scene.blockers, leg.origin, LegEnd(leg));
      if wall.Some? {
        BouncesTarget(m, scene, d, NextLeg(m, leg, wall.value), bounce + 1);
      }
    }
  }

  /** A delivery only ever hits entities its view enumerates: never a hidden wielder, even through an index. */
  lemma PlanTargetsEntities(m: Maths, scene: Scene, delivery: DamageDelivery, shot: Shot, draws: Draws, cursor: nat)
    requires Lawful(m) && Faithful(scene)
    ensures Targets(Plan(m, scene, delivery, shot, draws, cursor), scene.entities)
  {
    PlanIgnoresIndex(m, scene, delivery, shot, draws, cursor);
    BarePlanTargets(m, WithoutIndex(scene), delivery, shot, draws, cursor);
  }

  lemma SingleRayTargets(m: Maths, scene: Scene, shot: Shot, damage: real, range: real, hitRadius: real,
                         falloff: Falloff, knockback: real)
    requires scene.index.None?
    ensures Targets(PlanSingleRay(m, scene, shot, damage, range, hitRadius, falloff, knockback), scene.entities)
  {
    StruckAreEntities(m, scene, Ray(shot.origin, shot.aim, range, hitRadius));
    RayTargets(scene.blockers, shot.origin, HitFrom(damage, falloff, knockback, shot.origin),
               RayStruck(m, scene, shot.origin, shot.aim, range, hitRadius), scene.entities);
  }

  lemma BarePlanTargets(m: Maths, scene: Scene, delivery: DamageDelivery, shot: Shot, draws: Draws, cursor: nat)
    requires scene.index.None?
    ensures Targets(Plan(m, scene, delivery, shot, draws, cursor), scene.entities)
  {
    var origin := shot.origin;
    match delivery
    case HitscanDelivery(damage, range, hitRadius, falloff, knockback) =>
      SingleRayTargets(m, scene, shot, damage, range, hitRadius, falloff, knockback);
    case BeamDelivery(damage, range, hitRadius, falloff, knockback) =>
      SingleRayTargets(m, scene, shot, damage, range, hitRadius, falloff, knockback);
    case ProjectileDelivery(damage, _, _, _, falloff, knockback) =>
      var f, sweep := FlightOf(m, delivery, shot.aim), SweepIn(m, scene, delivery.radius);
      forall from, to, along ensures sweep(from, to, along).Some? ==>
          sweep(from, to, along).value.entity in scene.entities {
        SweptHitIsEntity(m, scene, f.radius, from, to, along);
      }
      FlightTargets(scene.blockers, sweep, f, HitFrom(damage, falloff, knockback, origin), origin, 0.0, 0,
                    scene.entities);
    case PelletDelivery(_, _, _, _, _, _, _) =>
      forall i: nat ensures Targets(PelletHits(m, scene, delivery, shot, draws)(i), scene.entities) {
        PelletTargets(m, scene, delivery, shot, draws, i);
      }
      PelletsTarget(PelletHits(m, scene, delivery, shot, draws), delivery.pelletCount, cursor, 0, scene.entities);
    case ChargeDelivery(_, _, _, range, hitRadius, falloff, knockback) =>
      SingleRayTargets(m, scene, shot, ChargeDamage(delivery, shot.heldTicks), range, hitRadius, falloff, knockback);
    case BounceDelivery(_, range, _, _, _, _) =>
      BouncesTarget(m, scene, delivery, Leg(origin, NormalizeVec(m, shot.aim), range), 0);
    case PierceDelivery(damage, range, hitRadius, maxTargets, falloff, knockback) =>
      StruckAreEntities(m, scene, Ray(origin, shot.aim, range, hitRadius));
      PierceTargets(scene.blockers, origin, HitFrom(damage, falloff, knockback, origin), maxTargets,
                    RayStruck(m, scene, origin, shot.aim, range, hitRadius), 0, scene.entities);
    case ExplosiveDelivery(damage, radius, falloff, knockback, sight) =>
      StruckAreEntities(m, scene, Blast(origin, radius));
      AreaTargets(scene.blockers, origin, HitFrom(damage, falloff, knockback, origin), sight,
                  StruckBy(m, scene, Blast(origin, radius)), scene.entities);
    case MeleeDelivery(damage, range, arc, knockback) =>
      var aim := NormalizeVec(m, shot.aim);
      var probe := Swing(origin, aim, range, arc / 2.0);
      StruckAreEntities(m, scene, probe);
      AreaTargets(scene.blockers, origin, SwingFrom(damage, knockback, origin, aim), false, StruckBy(m, scene, probe),
                  scene.entities);
  }
}
