/**
 Inputs on which a stepped projectile and its whole flight part ways
 (packages/simulation/src/delivery.ts and projectile.ts).
 */
module FlightExamples {
  import opened Wrappers
  import opened Sorting
  import opened Geometry
  import opened Damage
  import opened World
  import opened Targeting
  import opened Delivery
  import opened Impact
  import opened FlightLaws
  import opened Projectiles
  import opened BounceLaws
  import Rng

  /** One entity, placed at `at`, and nothing else. */
  function Lonely(at: Vec2): Scene
  {
    Scene([2], map[2 := at], map[], [], None)
  }

  function Anybody(): Policy
  {
    (c: HitContext) => true
  }

  const FULL_HEALTH: Vitals := map[2 := Health(10.0, 10.0)]

  const EASTWARD := Shot(Vec2(0.0, 0.0), Vec2(1.0, 0.0), None)

  lemma LonelyIsFaithful(at: Vec2)
    ensures Faithful(Lonely(at))
  {
  }

  lemma AxisDistance(m: Maths, a: real, b: real)
    requires Lawful(m)
    ensures Distance(m, Vec2(a, 0.0), Vec2(b, 0.0)) == Abs(a - b)
  {
    HypotOnAxis(m, a - b);
  }

  lemma AlongAxis(a: real, b: real, t: real)
    ensures Along(Vec2(a, 0.0), Vec2(b, 0.0), t) == Vec2(a + (b - a) * t, 0.0)
  {
  }

  lemma NearIfMet(m: Maths, at: Vec2, radius: real, from: Vec2, to: Vec2, t: real)
    requires 0.0 <= t <= 1.0 && Distance(m, at, Along(from, to, t)) <= radius
    ensures ComesWithin(m, from, to, radius, at) && SomebodyNear(m, Lonely(at), radius, from, to)
  {
    assert 2 in Lonely(at).entities && Lonely(at).positions[2] == at;
  }

  lemma NothingBlocks(from: Vec2, to: Vec2, expand: real)
    ensures !Blocked([], from, to, expand)
  {
  }

  ghost predicate FartherAt(x: real, radius: real, a: real, b: real, t: real)
  {
    0.0 <= t <= 1.0 ==> Abs(x - At(a, b - a, t)) > radius
  }

  /** A target farther than the radius from every point of an axis-parallel path is not near it. */
  lemma NotNearIfFar(m: Maths, x: real, radius: real, a: real, b: real)
    requires Lawful(m) && forall t :: FartherAt(x, radius, a, b, t)
    ensures !SomebodyNear(m, Lonely(Vec2(x, 0.0)), radius, Vec2(a, 0.0), Vec2(b, 0.0))
  {
    var at, from, to := Vec2(x, 0.0), Vec2(a, 0.0), Vec2(b, 0.0);
    forall t | 0.0 <= t <= 1.0 ensures Distance(m, at, Along(from, to, t)) > radius {
      AlongAxis(a, b, t);
      AxisDistance(m, x, At(a, b - a, t));
      assert FartherAt(x, radius, a, b, t);
    }
    assert !ComesWithin(m, from, to, radius, at);
  }

  lemma OpenIs(m: Maths, scene: Scene, f: Flight, origin: Vec2, n: nat, from: Vec2, to: Vec2)
    requires from == FlightAt(f.step, origin, n) && to == FlightAt(f.step, origin, n + 1)
    requires !Blocked(scene.blockers, from, to, f.radius) && !SomebodyNear(m, scene, f.radius, from, to)
    ensures Open(m, scene, f, origin, n)
  {
  }

  lemma StrikeIs(m: Maths, scene: Scene, f: Flight, origin: Vec2, n: nat, from: Vec2, to: Vec2, s: Struck)
    requires from == FlightAt(f.step, origin, n) && to == FlightAt(f.step, origin, n + 1)
    requires OpenBefore(m, scene, f, origin, n) && !Blocked(scene.blockers, from, to, f.radius)
    requires NearestMet(m, scene, f.radius, from, to, s)
    ensures StrikesAt(m, scene, f, origin, n, s)
  {
  }

  /** A projectile that may not live a single tick and starts on top of its target. */
  const SHORT_LIVED := ProjectileDelivery(1.0, 1.0, 0, 1.0, NoFalloff, 0.0)

  lemma HarmsItsStart(m: Maths, shot: Shot, d: DamageDelivery)
    requires Lawful(m) && d.ProjectileDelivery? && d.radius >= 0.0
    ensures !FirstTickIsHarmless(m, Lonely(shot.origin), shot, d)
  {
    var from, to := shot.origin, AddVec(shot.origin, FlightOf(m, d, shot.aim).step);
    assert Along(from, to, 0.0) == from;
    HypotOnAxis(m, 0.0);
    NothingBlocks(from, to, d.radius);
    NearIfMet(m, from, d.radius, from, to, 0.0);
  }

  lemma ShortLifeDiffers(m: Maths, draws: Rng.Draws, cursor: nat)
    requires Lawful(m)
    ensures var scene := Lonely(Vec2(0.0, 0.0));
            var p := CreateProjectile(m, 1, 1, None, EASTWARD.origin, EASTWARD.aim, SHORT_LIVED);
            !Agree(Stepping(m, scene, Anybody(), FULL_HEALTH, p),
                   ApplyHits(Impulse(m), FULL_HEALTH, scene.teams, DamageSource(Some(1), None), Anybody(),
                             Plan(m, scene, SHORT_LIVED, EASTWARD, draws, cursor)))
  {
    LonelyIsFaithful(Vec2(0.0, 0.0));
    HarmsItsStart(m, EASTWARD, SHORT_LIVED);
    SteppedFlightIsWholeFlight(m, Lonely(Vec2(0.0, 0.0)), Anybody(), FULL_HEALTH, 1, 1, None, EASTWARD, SHORT_LIVED,
                               draws, cursor);
  }

  /** A projectile that flies backwards and loses damage with distance. */
  const BACKWARD := ProjectileDelivery(8.0, -1.0, 2, 0.25, LinearFalloff(0.0, 4.0, 0.0), 0.0)

  const BEHIND := Vec2(-1.5, 0.0)

  const BACKWARD_FLIGHT := Flight(0.25, Vec2(-1.0, 0.0), -1.0, 2)

  lemma BackwardStep(m: Maths)
    requires Lawful(m)
    ensures FlightOf(m, BACKWARD, EASTWARD.aim) == BACKWARD_FLIGHT
  {
    HypotOnAxis(m, 1.0);
    assert NormalizeVec(m, Vec2(1.0, 0.0)) == Vec2(1.0, 0.0);
  }

  /** On an axis-parallel path that runs over it, the only entity of the scene is the nearest one met. */
  lemma MetOnAxis(m: Maths, x: real, radius: real, a: real, b: real, t: real)
    requires Lawful(m) && radius >= 0.0 && 0.0 <= t <= 1.0 && At(a, b - a, t) == x
    ensures NearestMet(m, Lonely(Vec2(x, 0.0)), radius, Vec2(a, 0.0), Vec2(b, 0.0), Struck(2, Vec2(x, 0.0), Abs(a - x)))
  {
    var at, from, to := Vec2(x, 0.0), Vec2(a, 0.0), Vec2(b, 0.0);
    AlongAxis(a, b, t);
    AxisDistance(m, x, x);
    NearIfMet(m, at, radius, from, to, t);
    AxisDistance(m, a, x);
    LonelyIsNearest(m, at, radius, from, to, Abs(a - x));
  }

  /** The only entity of a lonely scene is the nearest one met. */
  lemma LonelyIsNearest(m: Maths, at: Vec2, radius: real, from: Vec2, to: Vec2, along: real)
    requires ComesWithin(m, from, to, radius, at) && along == Distance(m, from, at)
    ensures NearestMet(m, Lonely(at), radius, from, to, Struck(2, at, along))
  {
  }

  /** Two ticks along the axis: the first stays away from the entity, the second runs over it. */
  lemma StrikesOnSecondTick(m: Maths, f: Flight, x: real, a: real, b: real, c: real, t: real)
    requires Lawful(m) && f.radius >= 0.0 && f.step == Vec2(b - a, 0.0) && c - b == b - a
    requires forall u :: FartherAt(x, f.radius, a, b, u)
    requires 0.0 <= t <= 1.0 && At(b, c - b, t) == x
    ensures StrikesAt(m, Lonely(Vec2(x, 0.0)), f, Vec2(a, 0.0), 1, Struck(2, Vec2(x, 0.0), Abs(b - x)))
  {
    var scene, origin := Lonely(Vec2(x, 0.0)), Vec2(a, 0.0);
    PathOf(f.step, origin);
    NotNearIfFar(m, x, f.radius, a, b);
    NothingBlocks(origin, Vec2(b, 0.0), f.radius);
    OpenIs(m, scene, f, origin, 0, origin, Vec2(b, 0.0));
    MetOnAxis(m, x, f.radius, b, c, t);
    NothingBlocks(Vec2(b, 0.0), Vec2(c, 0.0), f.radius);
    StrikeIs(m, scene, f, origin, 1, Vec2(b, 0.0), Vec2(c, 0.0), Struck(2, Vec2(x, 0.0), Abs(b - x)));
  }

  lemma PathOf(step: Vec2, origin: Vec2)
    ensures FlightAt(step, origin, 0) == origin
    ensures FlightAt(step, origin, 1) == AddVec(origin, step)
    ensures FlightAt(step, origin, 2) == AddVec(AddVec(origin, step), step)
  {
    assert FlightAt(step, origin, 1) == AddVec(FlightAt(step, origin, 0), step);
  }

  lemma SecondTickStrikes(m: Maths)
    requires Lawful(m)
    ensures StrikesAt(m, Lonely(BEHIND), BACKWARD_FLIGHT, EASTWARD.origin, 1, Struck(2, BEHIND, 0.5))
  {
    forall u ensures FartherAt(-1.5, 0.25, 0.0, -1.0, u) {
      assert At(0.0, -1.0 - 0.0, u) == -u;
    }
    assert At(-1.0, -2.0 - -1.0, 0.5) == -1.5;
    StrikesOnSecondTick(m, BACKWARD_FLIGHT, -1.5, 0.0, -1.0, -2.0, 0.5);
  }

  lemma AmountsDiffer()
    ensures !SameEffectAt(Lonely(BEHIND), Anybody(), FULL_HEALTH, DamageSource(Some(1), None), DamageAt(BACKWARD),
                          -1.0, 1, Struck(2, BEHIND, 0.5))
  {
    assert Flown(1.0, 1) == 1.0 && Flown(-1.0, 1) == -1.0;
    assert EvaluateFalloff(BACKWARD.falloff, 1.5) == 0.625 && EvaluateFalloff(BACKWARD.falloff, -0.5) == 1.0;
    assert DamageAt(BACKWARD)(1.5) == 5.0 && DamageAt(BACKWARD)(-0.5) == 8.0;
    assert ApplyDamageToHealth(FULL_HEALTH[2], 5.0).current == 5.0
        && ApplyDamageToHealth(FULL_HEALTH[2], 8.0).current == 2.0;
  }

  /** A strike on which the two counts have unlike effects sets the two resolvers apart. */
  lemma UnlikeStrikeDiffers(m: Maths, scene: Scene, policy: Policy, vitals: Vitals, shot: Shot, d: DamageDelivery,
                            draws: Rng.Draws, cursor: nat, f: Flight, n: nat, s: Struck)
    requires Lawful(m) && Faithful(scene) && d.ProjectileDelivery? && f == FlightOf(m, d, shot.aim)
    requires n < d.ttlTicks && StrikesAt(m, scene, f, shot.origin, n, s)
    requires !SameEffectAt(scene, policy, vitals, DamageSource(Some(1), None), DamageAt(d), d.speed, n, s)
    ensures var p := CreateProjectile(m, 1, 1, None, shot.origin, shot.aim, d);
            !Agree(Stepping(m, scene, policy, vitals, p),
                   ApplyHits(Impulse(m), vitals, scene.teams, DamageSource(Some(1), None), policy,
                             Plan(m, scene, d, shot, draws, cursor)))
  {
    var source := DamageSource(Some(1), None);
    TestIs(scene, policy, vitals, source, DamageAt(d), d.speed, n, s);
    OnTheOneStrike(m, scene, f, shot.origin, d.ttlTicks,
                   SameEffectOn(scene, policy, vitals, source, DamageAt(d), d.speed), n, s);
    SteppedFlightIsWholeFlight(m, scene, policy, vitals, 1, 1, None, shot, d, draws, cursor);
  }

  /** The whole flight counts its distance down and deals 8, the stepped one counts it up and deals 5. */
  lemma NegativeSpeedDiffers(m: Maths, draws: Rng.Draws, cursor: nat)
    requires Lawful(m)
    ensures var scene := Lonely(BEHIND);
            var p := CreateProjectile(m, 1, 1, None, EASTWARD.origin, EASTWARD.aim, BACKWARD);
            !Agree(Stepping(m, scene, Anybody(), FULL_HEALTH, p),
                   ApplyHits(Impulse(m), FULL_HEALTH, scene.teams, DamageSource(Some(1), None), Anybody(),
                             Plan(m, scene, BACKWARD, EASTWARD, draws, cursor)))
  {
    LonelyIsFaithful(BEHIND);
    BackwardStep(m);
    SecondTickStrikes(m);
    AmountsDiffer();
    UnlikeStrikeDiffers(m, Lonely(BEHIND), Anybody(), FULL_HEALTH, EASTWARD, BACKWARD, draws, cursor,
                        BACKWARD_FLIGHT, 1, Struck(2, BEHIND, 0.5));
  }
}
