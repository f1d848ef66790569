/**
 What every delivery family promises (packages/simulation/src/delivery.ts), told without its
 loops: whom it hits, with how much, and from where it pushes.
 */
module PlanLaws {
  import opened Wrappers
  import opened Sorting
  import opened Geometry
  import opened Damage
  import opened World
  import opened Targeting
  import opened Delivery
  import opened DeliveryLaws
  import opened BounceLaws
  import opened FlightLaws
  import opened Rng

  // ----- how much a hit deals -----

  function Lowest(falloff: Falloff): real
    requires falloff.LinearFalloff?
  {
    Min(1.0, Max(0.0, falloff.minMultiplier))
  }

  /**
   All of the damage up to the start, the lowest share from the end on, and between them a loss
   that is to the whole loss as the way past the start is to the whole way.
   */
  ghost predicate FalloffShare(falloff: Falloff, way: real, share: real)
  {
    match falloff
    case NoFalloff => share == 1.0
    case LinearFalloff(start, end, _) =>
      if way <= start then share == 1.0
      else if way >= end then share == Lowest(falloff)
      else (1.0 - share) * (end - start) == (1.0 - Lowest(falloff)) * (way - start)
  }

  lemma ShareOfWay(whole: real, part: real, loss: real, x: real)
    requires whole != 0.0 && x == part / whole * loss
    ensures x * whole == loss * part
  {
    var q := part / whole;
    assert q * whole == part;
    assert x * whole == q * whole * loss;
  }

  lemma SameProduct(x: real, y: real, w: real, p: real)
    requires w != 0.0 && x * w == p && y * w == p
    ensures x == y
  {
    var gap := x - y;
    assert gap * w == 0.0;
    if gap != 0.0 {
      NonzeroProduct(gap, w, gap * w);
    }
  }

  /** The falloff multiplier is the one share that the rule allows. */
  lemma FalloffIsExact(falloff: Falloff, way: real, share: real)
    ensures share == EvaluateFalloff(falloff, way) <==> FalloffShare(falloff, way, share)
  {
    if falloff.LinearFalloff? && falloff.startDistance < way < falloff.endDistance {
      var whole, part := falloff.endDistance - falloff.startDistance, way - falloff.startDistance;
      var loss, got := 1.0 - Lowest(falloff), EvaluateFalloff(falloff, way);
      ShareOfWay(whole, part, loss, part / whole * loss);
      assert 1.0 - got == part / whole * loss;
      if FalloffShare(falloff, way, share) {
        SameProduct(1.0 - share, 1.0 - got, whole, loss * part);
      }
    }
  }

  lemma PartIsLess(part: real, whole: real)
    requires 0.0 <= part <= whole && whole > 0.0
    ensures 0.0 <= part / whole <= 1.0
  {
  }

  lemma LargerPart(a: real, b: real, whole: real, loss: real)
    requires 0.0 <= a <= b && whole > 0.0 && loss >= 0.0
    ensures a / whole * loss <= b / whole * loss
  {
    var p, q := a / whole, b / whole;
    assert (q - p) * whole == b - a;
    assert q >= p;
    assert (q - p) * loss >= 0.0;
  }

  lemma PartOfLoss(q: real, loss: real)
    requires 0.0 <= q <= 1.0 && loss >= 0.0
    ensures 0.0 <= q * loss <= loss
  {
    assert (1.0 - q) * loss >= 0.0;
  }

  /** Damage never grows with distance, and the share stays between the lowest one and all. */
  lemma FalloffNeverRises(falloff: Falloff, near: real, far: real)
    requires near <= far
    ensures EvaluateFalloff(falloff, far) <= EvaluateFalloff(falloff, near) <= 1.0
    ensures falloff.LinearFalloff? ==> Lowest(falloff) <= EvaluateFalloff(falloff, far)
  {
    if falloff.LinearFalloff? {
      FalloffInRange(falloff, near);
      FalloffInRange(falloff, far);
      var start, end := falloff.startDistance, falloff.endDistance;
      if start < near && far < end {
        LargerPart(near - start, far - start, end - start, 1.0 - Lowest(falloff));
      }
    }
  }

  lemma FalloffInRange(falloff: Falloff, way: real)
    requires falloff.LinearFalloff?
    ensures Lowest(falloff) <= EvaluateFalloff(falloff, way) <= 1.0
  {
    var start, end := falloff.startDistance, falloff.endDistance;
    if start < way < end {
      PartIsLess(way - start, end - start);
      PartOfLoss((way - start) / (end - start), 1.0 - Lowest(falloff));
    }
  }

  /** What a charge deals: all with no held time or a full charge, the least at none, in proportion between. */
  ghost predicate ChargeGives(d: DamageDelivery, heldTicks: Option<int>, damage: real)
    requires d.ChargeDelivery?
  {
    if heldTicks.None? || d.chargeTicks <= 0 || heldTicks.value >= d.chargeTicks then damage == d.maxDamage
    else if heldTicks.value <= 0 then damage == d.minDamage
    else (damage - d.minDamage) * d.chargeTicks as real == (d.maxDamage - d.minDamage) * heldTicks.value as real
  }

  lemma HeldShare(held: int, ticks: int)
    requires ticks > 0
    ensures held <= 0 ==> held as real / ticks as real <= 0.0
    ensures held >= ticks ==> held as real / ticks as real >= 1.0
    ensures 0 < held < ticks ==> 0.0 < held as real / ticks as real < 1.0
  {
  }

  /** The damage of a charge is the one amount that its held time allows. */
  lemma ChargeIsExact(d: DamageDelivery, heldTicks: Option<int>, damage: real)
    requires d.ChargeDelivery?
    ensures damage == ChargeDamage(d, heldTicks) <==> ChargeGives(d, heldTicks, damage)
  {
    if heldTicks.Some? && d.chargeTicks > 0 {
      var held, ticks, rise := heldTicks.value, d.chargeTicks, d.maxDamage - d.minDamage;
      HeldShare(held, ticks);
      if 0 < held < ticks {
        var got := ChargeDamage(d, heldTicks);
        assert got - d.minDamage == rise * (held as real / ticks as real);
        ShareOfWay(ticks as real, held as real, rise, got - d.minDamage);
        if ChargeGives(d, heldTicks, damage) {
          SameProduct(damage - d.minDamage, got - d.minDamage, ticks as real, rise * held as real);
        }
      }
    }
  }

  // ----- what one hit is -----

  /** The damage left over a way. */
  function Dealt(damage: real, falloff: Falloff, way: real): real
  {
    damage * EvaluateFalloff(falloff, way)
  }

  /** The hit lands on `s`, deals what the falloff leaves of the damage and pushes away from the origin. */
  ghost predicate LandsOn(s: Struck, origin: Vec2, damage: real, falloff: Falloff, knockback: real, hit: PlannedHit)
  {
    && hit.target == s.entity && hit.knockback == knockback
    && AddVec(origin, hit.direction) == s.position
    && hit.amount == Dealt(damage, falloff, s.along)
  }

  lemma HitLands(s: Struck, origin: Vec2, damage: real, falloff: Falloff, knockback: real)
    ensures LandsOn(s, origin, damage, falloff, knockback, HitFrom(damage, falloff, knockback, origin)(s))
  {
  }

  /** A swing deals all its damage and pushes away from its wielder, or along the aim when on top of the target. */
  lemma SwingLands(s: Struck, origin: Vec2, aim: Vec2, damage: real, knockback: real)
    ensures var hit := SwingFrom(damage, knockback, origin, aim)(s);
            && hit.target == s.entity && hit.amount == damage && hit.knockback == knockback
            && (s.along > 0.0 ==> AddVec(origin, hit.direction) == s.position)
            && (s.along <= 0.0 ==> hit.direction == aim)
  {
  }

  /** A pellet is turned off the aim by an angle drawn evenly from half the spread to each side. */
  lemma PelletIsJittered(m: Maths, shot: Shot, spread: real, u: real) returns (angle: real)
    requires 0.0 <= u <= 1.0 && spread >= 0.0
    ensures angle + spread / 2.0 == u * spread && -(spread / 2.0) <= angle <= spread / 2.0
    ensures PelletDirection(m, shot, spread, u) == RotateVec(m, NormalizeVec(m, shot.aim), angle)
  {
    angle := (u * 2.0 - 1.0) * (spread / 2.0);
    JitterInRange(u, spread, angle);
  }

  lemma JitterInRange(u: real, spread: real, angle: real)
    requires 0.0 <= u <= 1.0 && spread >= 0.0 && angle == (u * 2.0 - 1.0) * (spread / 2.0)
    ensures angle + spread / 2.0 == u * spread && -(spread / 2.0) <= angle <= spread / 2.0
  {
    assert angle == u * spread - spread / 2.0;
    PartOfLoss(u, spread);
  }

  // ----- whom a delivery hits -----

  /** At most one hit, on the nearest entity the ray meets that nothing shields; none when all are shielded. */
  ghost predicate RayPlan(m: Maths, scene: Scene, shot: Shot, damage: real, range: real, hitRadius: real,
                          falloff: Falloff, knockback: real, plan: seq<PlannedHit>)
  {
    var probe := Ray(shot.origin, shot.aim, range, hitRadius);
    && (plan == [] <==> forall s :: Reaches(m, scene, probe, s) ==> !Clear(scene, shot.origin, s))
    && (plan != [] ==> |plan| == 1 && exists s :: NearestClear(m, scene, shot.origin, probe, s)
                                                 && LandsOn(s, shot.origin, damage, falloff, knockback, plan[0]))
  }

  ghost predicate ChargePlan(m: Maths, scene: Scene, d: DamageDelivery, shot: Shot, plan: seq<PlannedHit>)
    requires d.ChargeDelivery?
  {
    exists damage :: ChargeGives(d, shot.heldTicks, damage)
                     && RayPlan(m, scene, shot, damage, d.range, d.hitRadius, d.falloff, d.knockback, plan)
  }

  /** The hits of `count` parts one after the other, part `i` obeying the law at `cursor + i`. */
  ghost predicate InTurn(law: (nat, seq<PlannedHit>) -> bool, cursor: nat, count: nat, plan: seq<PlannedHit>)
  {
    exists parts: seq<seq<PlannedHit>> ::
      && |parts| == count && plan == Flatten(parts)
      && forall i: nat :: i < |parts| ==> law(cursor + i, parts[i])
  }

  /** What the pellet that draws float `i` hits: the nearest clear entity of its ray, or nobody. */
  ghost function PelletLawAt(m: Maths, scene: Scene, d: DamageDelivery, shot: Shot,
                             draws: Draws): (nat, seq<PlannedHit>) -> bool
    requires d.PelletDelivery?
  {
    (i: nat, hits: seq<PlannedHit>) => PelletLaw(m, scene, d, PelletShot(m, d, shot, draws, i), hits)
  }

  ghost predicate PelletPlan(m: Maths, scene: Scene, d: DamageDelivery, shot: Shot, draws: Draws, cursor: nat,
                             plan: seq<PlannedHit>)
    requires d.PelletDelivery?
  {
    InTurn(PelletLawAt(m, scene, d, shot, draws), cursor, FloatsDrawn(d), plan)
  }

  /** A prefix of the entities met, nearest first, ended by a shield, the budget or the end. */
  ghost predicate PiercePlan(m: Maths, scene: Scene, d: DamageDelivery, shot: Shot, plan: seq<PlannedHit>)
    requires d.PierceDelivery?
  {
    exists struck ::
      && Sorted(struck, NotAfter)
      && (forall s :: s in struck <==> Reaches(m, scene, Ray(shot.origin, shot.aim, d.range, d.hitRadius), s))
      && PiercesTo(scene.blockers, shot.origin, struck, AtLeastOne(d.maxTargets), |plan|)
      && plan == Hits(HitFrom(d.damage, d.falloff, d.knockback, shot.origin), struck[..|plan|])
  }

  /** Everybody the probe meets, once each in id order, except the shielded when sight is required. */
  ghost predicate AreaPlan(m: Maths, scene: Scene, origin: Vec2, probe: Probe, hitOf: Struck -> PlannedHit,
                           sight: bool, plan: seq<PlannedHit>)
  {
    && AscendingTargets(plan)
    && forall hit :: hit in plan <==> exists s :: Reaches(m, scene, probe, s) && hit == hitOf(s)
                                                  && !(sight && !Clear(scene, origin, s))
  }

  ghost predicate FlightPlan(m: Maths, scene: Scene, f: Flight, hitOf: Struck -> PlannedHit, origin: Vec2,
                             plan: seq<PlannedHit>)
  {
    FlightLaw(m, scene, f, hitOf, origin, plan) && CountsTheWay(m, scene, f, hitOf, origin, plan)
  }

  /** What each family plans over a scene. */
  ghost predicate PlanLaw(m: Maths, scene: Scene, delivery: DamageDelivery, shot: Shot, draws: Draws, cursor: nat,
                          plan: seq<PlannedHit>)
  {
    var origin, aim := shot.origin, NormalizeVec(m, shot.aim);
    match delivery
    case HitscanDelivery(damage, range, hitRadius, falloff, knockback) =>
      RayPlan(m, scene, shot, damage, range, hitRadius, falloff, knockback, plan)
    case BeamDelivery(damage, range, hitRadius, falloff, knockback) =>
      RayPlan(m, scene, shot, damage, range, hitRadius, falloff, knockback, plan)
    case ProjectileDelivery(damage, speed, ttlTicks, radius, falloff, knockback) =>
      FlightPlan(m, scene, Flight(radius, ScaleVec(aim, speed), speed, ttlTicks),
                 HitFrom(damage, falloff, knockback, origin), origin, plan)
    case PelletDelivery(_, _, _, _, _, _, _) => PelletPlan(m, scene, delivery, shot, draws, cursor, plan)
    case ChargeDelivery(_, _, _, _, _, _, _) => ChargePlan(m, scene, delivery, shot, plan)
    case BounceDelivery(_, range, _, _, _, _) => BounceLaw(m, scene, delivery, Leg(origin, aim, range), 0, plan)
    case PierceDelivery(_, _, _, _, _, _) => PiercePlan(m, scene, delivery, shot, plan)
    case ExplosiveDelivery(damage, radius, falloff, knockback, sight) =>
      AreaPlan(m, scene, origin, Blast(origin, radius), HitFrom(damage, falloff, knockback, origin), sight, plan)
    case MeleeDelivery(damage, range, arc, knockback) =>
      AreaPlan(m, scene, origin, Swing(origin, aim, range, arc / 2.0), SwingFrom(damage, knockback, origin, aim),
               false, plan)
  }

  lemma SingleRayIsLawful(m: Maths, scene: Scene, shot: Shot, damage: real, range: real, hitRadius: real,
                          falloff: Falloff, knockback: real)
    requires Lawful(m) && Faithful(scene)
    ensures RayPlan(m, scene, shot, damage, range, hitRadius, falloff, knockback,
                    PlanSingleRay(m, scene, shot, damage, range, hitRadius, falloff, knockback))
  {
    var probe := Ray(shot.origin, shot.aim, range, hitRadius);
    var plan := PlanSingleRay(m, scene, shot, damage, range, hitRadius, falloff, knockback);
    RayHitsNearestClear(m, scene, shot, damage, range, hitRadius, falloff, knockback);
    if plan != [] {
      var s :| NearestClear(m, scene, shot.origin, probe, s)
               && plan == [HitFrom(damage, falloff, knockback, shot.origin)(s)];
      HitLands(s, shot.origin, damage, falloff, knockback);
    }
  }

  lemma PartsInTurn(law: (nat, seq<PlannedHit>) -> bool, hits: nat -> seq<PlannedHit>, cursor: nat, count: nat)
    requires forall i :: law(i, hits(i))
    ensures InTurn(law, cursor, count, Flatten(PartsOf(hits, count, cursor)))
  {
  }

  lemma PelletsAreLawful(m: Maths, scene: Scene, d: DamageDelivery, shot: Shot, draws: Draws, cursor: nat)
    requires Lawful(m) && Faithful(scene) && d.PelletDelivery?
    ensures PelletPlan(m, scene, d, shot, draws, cursor, Plan(m, scene, d, shot, draws, cursor))
  {
    var law, hits := PelletLawAt(m, scene, d, shot, draws), PelletHits(m, scene, d, shot, draws);
    forall i ensures law(i, hits(i)) {
      PelletHitsNearestClear(m, scene, d, shot, draws, i);
    }
    PartsInTurn(law, hits, cursor, FloatsDrawn(d));
    SpreadIsItsPellets(m, scene, d, shot, draws, cursor);
  }

  /** Every delivery plans what its family promises. */
  lemma PlanIsLawful(m: Maths, scene: Scene, delivery: DamageDelivery, shot: Shot, draws: Draws, cursor: nat)
    requires Lawful(m) && Faithful(scene)
    ensures PlanLaw(m, scene, delivery, shot, draws, cursor, Plan(m, scene, delivery, shot, draws, cursor))
  {
    match delivery
    case HitscanDelivery(damage, range, hitRadius, falloff, knockback) =>
      SingleRayIsLawful(m, scene, shot, damage, range, hitRadius, falloff, knockback);
    case BeamDelivery(damage, range, hitRadius, falloff, knockback) =>
      SingleRayIsLawful(m, scene, shot, damage, range, hitRadius, falloff, knockback);
    case ProjectileDelivery(_, _, _, _, _, _) => FlightHitsFirstMet(m, scene, delivery, shot, draws, cursor);
    case PelletDelivery(_, _, _, _, _, _, _) => PelletsAreLawful(m, scene, delivery, shot, draws, cursor);
    case ChargeDelivery(_, _, _, range, hitRadius, falloff, knockback) =>
      var damage := ChargeDamage(delivery, shot.heldTicks);
      ChargeIsExact(delivery, shot.heldTicks, damage);
      SingleRayIsLawful(m, scene, shot, damage, range, hitRadius, falloff, knockback);
    case BounceDelivery(_, range, _, _, _, _) =>
      BounceHitsTheFirstMet(m, scene, delivery, Leg(shot.origin, NormalizeVec(m, shot.aim), range));
    case PierceDelivery(_, _, _, _, _, _) => PierceGoesThrough(m, scene, delivery, shot, draws, cursor);
    case ExplosiveDelivery(_, _, _, _, _) => BlastHitsExactly(m, scene, delivery, shot, draws, cursor);
    case MeleeDelivery(_, _, _, _) => SwingHitsExactly(m, scene, delivery, shot, draws, cursor);
  }
}
