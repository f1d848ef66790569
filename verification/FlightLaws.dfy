/**
 What a projectile delivery and a spread of pellets hit, stated over the whole scene
 (packages/simulation/src/delivery.ts).
 */
module FlightLaws {
  import opened Wrappers
  import opened Sorting
  import opened Geometry
  import opened Damage
  import opened World
  import opened Targeting
  import opened Delivery
  import opened DeliveryLaws
  import opened Rng

  // ----- the path of a flight -----

  /** Where a flight is when its tick `n` begins. */
  function FlightAt(step: Vec2, origin: Vec2, n: nat): Vec2
  {
    if n == 0 then origin else AddVec(FlightAt(step, origin, n - 1), step)
  }

  /** The distance counted when tick `n` begins, at so much a tick. */
  function Flown(speed: real, n: nat): real
  {
    if n == 0 then 0.0 else Flown(speed, n - 1) + speed
  }

  lemma {:induction false} FlownIsProduct(speed: real, n: nat)
    ensures Flown(speed, n) == n as real * speed
  {
    if n > 0 {
      FlownIsProduct(speed, n - 1);
    }
  }

  /** Some entity of the scene comes within the radius of the segment. */
  ghost predicate SomebodyNear(m: Maths, scene: Scene, radius: real, from: Vec2, to: Vec2)
  {
    exists e :: e in scene.entities && e in scene.positions && ComesWithin(m, from, to, radius, scene.positions[e])
  }

  /** `s` is the entity met on the segment that is nearest to its start, ties going to the lower id. */
  ghost predicate NearestMet(m: Maths, scene: Scene, radius: real, from: Vec2, to: Vec2, s: Struck)
  {
    && s.entity in scene.entities && s.entity in scene.positions && s.position == scene.positions[s.entity]
    && s.along == Distance(m, from, s.position) && ComesWithin(m, from, to, radius, s.position)
    && forall e :: e in scene.entities && e in scene.positions
                   && ComesWithin(m, from, to, radius, scene.positions[e]) ==>
         NotAfter(s, Struck(e, scene.positions[e], Distance(m, from, scene.positions[e])))
  }

  lemma SweptHitIsNearestMet(m: Maths, scene: Scene, radius: real, from: Vec2, to: Vec2, travelled: real)
    requires Lawful(m) && Faithful(scene)
    ensures var hit := SweptHit(m, scene, radius, from, to, travelled);
            && (hit.Some? <==> SomebodyNear(m, scene, radius, from, to))
            && (hit.Some? ==> NearestMet(m, scene, radius, from, to, hit.value.(along := hit.value.along - travelled)))
  {
    SweepStrikesTheNearest(m, scene, from, to, radius);
    SweepCountsDistance(m, scene, radius, from, to);
  }

  lemma SweepCountsDistance(m: Maths, scene: Scene, radius: real, from: Vec2, to: Vec2)
    requires Lawful(m) && Faithful(scene)
    ensures var hit := NearestFrom(None, StruckBy(m, scene, Sweep(from, to, radius)));
            hit.Some? ==> hit.value.along == Distance(m, from, hit.value.position)
  {
    var probe := Sweep(from, to, radius);
    IndexReachesTheSame(m, scene, probe);
    AcceptMembers(Test(m, probe), scene.positions, scene.entities);
    NearestFromIsLeast(None, StruckBy(m, scene, probe));
  }

  // ----- flights -----

  /** Tick `n` flies on: nothing blocks it and nobody is near. */
  ghost predicate Open(m: Maths, scene: Scene, f: Flight, origin: Vec2, n: nat)
  {
    var from, to := FlightAt(f.step, origin, n), FlightAt(f.step, origin, n + 1);
    !Blocked(scene.blockers, from, to, f.radius) && !SomebodyNear(m, scene, f.radius, from, to)
  }

  ghost predicate OpenBefore(m: Maths, scene: Scene, f: Flight, origin: Vec2, n: nat)
  {
    forall k: nat :: k < n ==> Open(m, scene, f, origin, k)
  }

  ghost predicate StopsAt(m: Maths, scene: Scene, f: Flight, origin: Vec2, n: nat)
  {
    OpenBefore(m, scene, f, origin, n)
        && Blocked(scene.blockers, FlightAt(f.step, origin, n), FlightAt(f.step, origin, n + 1), f.radius)
  }

  /** The flight gets to tick `n` and strikes `s` there. */
  ghost predicate StrikesAt(m: Maths, scene: Scene, f: Flight, origin: Vec2, n: nat, s: Struck)
  {
    var from, to := FlightAt(f.step, origin, n), FlightAt(f.step, origin, n + 1);
    && OpenBefore(m, scene, f, origin, n) && !Blocked(scene.blockers, from, to, f.radius)
    && NearestMet(m, scene, f.radius, from, to, s)
  }

  /** What a plan says of a flight: the one hit of its striking tick, or that it is stopped or spent first. */
  ghost predicate FlightLaw(m: Maths, scene: Scene, f: Flight, hitOf: Struck -> PlannedHit, origin: Vec2,
                            plan: seq<PlannedHit>)
  {
    if plan == [] then
      (exists n: nat :: n < f.ttlTicks && StopsAt(m, scene, f, origin, n)) || forall n: nat :: n < f.ttlTicks ==>
          Open(m, scene, f, origin, n)
    else
      exists n: nat, s :: HitsAt(m, scene, f, hitOf, origin, plan, n, s)
  }

  /** The plan is the hit on `s`, struck on tick `n` at the distance counted so far. */
  ghost predicate HitsAt(m: Maths, scene: Scene, f: Flight, hitOf: Struck -> PlannedHit, origin: Vec2,
                         plan: seq<PlannedHit>, n: nat, s: Struck)
  {
    n < f.ttlTicks && StrikesAt(m, scene, f, origin, n, s) && plan == [hitOf(s.(along := Flown(f.speed, n) + s.along))]
  }

  lemma {:induction false} PlanFlightObeysLaw(m: Maths, scene: Scene, f: Flight, hitOf: Struck -> PlannedHit,
      origin: Vec2, tick: nat)
    requires Lawful(m) && Faithful(scene) && OpenBefore(m, scene, f, origin, tick)
    ensures FlightLaw(m, scene, f, hitOf, origin, PlanFrom(m, scene, f, hitOf, origin, tick))
    decreases f.ttlTicks - tick
  {
    if tick < f.ttlTicks {
      var from, to := FlightAt(f.step, origin, tick), FlightAt(f.step, origin, tick + 1);
      var hit := SweptHit(m, scene, f.radius, from, to, Flown(f.speed, tick));
      SweptHitIsNearestMet(m, scene, f.radius, from, to, Flown(f.speed, tick));
      PlanStep(m, scene, f, hitOf, origin, tick);
      if Blocked(scene.blockers, from, to, f.radius) {
        StopObeysLaw(m, scene, f, hitOf, origin, tick);
      } else if hit.Some? {
        StrikeObeysLaw(m, scene, f, hitOf, origin, tick, hit.value);
      } else {
        StillOpen(m, scene, f, origin, tick);
        PlanFlightObeysLaw(m, scene, f, hitOf, origin, tick + 1);
      }
    }
  }

  lemma StopObeysLaw(m: Maths, scene: Scene, f: Flight, hitOf: Struck -> PlannedHit, origin: Vec2, n: nat)
    requires n < f.ttlTicks && OpenBefore(m, scene, f, origin, n)
    requires Blocked(scene.blockers, FlightAt(f.step, origin, n), FlightAt(f.step, origin, n + 1), f.radius)
    ensures FlightLaw(m, scene, f, hitOf, origin, [])
  {
    assert StopsAt(m, scene, f, origin, n);
  }

  lemma StillOpen(m: Maths, scene: Scene, f: Flight, origin: Vec2, n: nat)
    requires OpenBefore(m, scene, f, origin, n) && Open(m, scene, f, origin, n)
    ensures OpenBefore(m, scene, f, origin, n + 1)
  {
  }

  /** The plan from the start of tick `tick` on. */
  ghost function PlanFrom(m: Maths, scene: Scene, f: Flight, hitOf: Struck -> PlannedHit, origin: Vec2,
                          tick: nat): seq<PlannedHit>
  {
    PlanFlight(scene.blockers, SweepIn(m, scene, f.radius), f, hitOf, FlightAt(f.step, origin, tick),
               Flown(f.speed, tick), tick)
  }

  lemma PlanStep(m: Maths, scene: Scene, f: Flight, hitOf: Struck -> PlannedHit, origin: Vec2, tick: nat)
    requires tick < f.ttlTicks
    ensures var from, to := FlightAt(f.step, origin, tick), FlightAt(f.step, origin, tick + 1);
            var hit := SweptHit(m, scene, f.radius, from, to, Flown(f.speed, tick));
            PlanFrom(m, scene, f, hitOf, origin, tick) ==
            if Blocked(scene.blockers, from, to, f.radius) then []
            else if hit.Some? then [hitOf(hit.value)]
            else PlanFrom(m, scene, f, hitOf, origin, tick + 1)
  {
  }

  lemma StrikeObeysLaw(m: Maths, scene: Scene, f: Flight, hitOf: Struck -> PlannedHit, origin: Vec2, n: nat,
                       hit: Struck)
    requires n < f.ttlTicks && OpenBefore(m, scene, f, origin, n)
    requires !Blocked(scene.blockers, FlightAt(f.step, origin, n), FlightAt(f.step, origin, n + 1), f.radius)
    requires NearestMet(m, scene, f.radius, FlightAt(f.step, origin, n), FlightAt(f.step, origin, n + 1),
                        hit.(along := hit.along - Flown(f.speed, n)))
    ensures FlightLaw(m, scene, f, hitOf, origin, [hitOf(hit)])
  {
    var s := hit.(along := hit.along - Flown(f.speed, n));
    assert s.(along := Flown(f.speed, n) + s.along) == hit;
    assert HitsAt(m, scene, f, hitOf, origin, [hitOf(hit)], n, s);
  }

  /**
   A projectile delivery hits the nearest entity of the first tick on which anybody comes within
   its radius, unless geometry stops it on that tick or before or its lifetime ends first.
   */
  lemma FlightHitsFirstMet(m: Maths, scene: Scene, d: DamageDelivery, shot: Shot, draws: Draws, cursor: nat)
    requires Lawful(m) && Faithful(scene) && d.ProjectileDelivery?
    ensures FlightLaw(m, scene, FlightOf(m, d, shot.aim), HitFrom(d.damage, d.falloff, d.knockback, shot.origin),
                      shot.origin,
                      Plan(m, scene, d, shot, draws, cursor))
    ensures CountsTheWay(m, scene, FlightOf(m, d, shot.aim), HitFrom(d.damage, d.falloff, d.knockback, shot.origin),
                         shot.origin,
                         Plan(m, scene, d, shot, draws, cursor))
  {
    var f, hitOf := FlightOf(m, d, shot.aim), HitFrom(d.damage, d.falloff, d.knockback, shot.origin);
    PlanFlightObeysLaw(m, scene, f, hitOf, shot.origin, 0);
    WayIsCounted(m, scene, f, hitOf, shot.origin, Plan(m, scene, d, shot, draws, cursor));
  }

  /** The way of `n` whole ticks. */
  function WayAfter(speed: real, n: nat): real
  {
    n as real * speed
  }

  /** The hit of tick `n` counts `n` times the speed and the way within that tick. */
  ghost predicate HitsAfter(m: Maths, scene: Scene, f: Flight, hitOf: Struck -> PlannedHit, origin: Vec2,
                            plan: seq<PlannedHit>, n: nat, s: Struck)
  {
    n < f.ttlTicks && StrikesAt(m, scene, f, origin, n, s)
        && plan == [hitOf(s.(along := WayAfter(f.speed, n) + s.along))]
  }

  ghost predicate CountsTheWay(m: Maths, scene: Scene, f: Flight, hitOf: Struck -> PlannedHit, origin: Vec2,
                               plan: seq<PlannedHit>)
  {
    plan != [] ==> exists n: nat, s :: HitsAfter(m, scene, f, hitOf, origin, plan, n, s)
  }

  lemma WayIsCounted(m: Maths, scene: Scene, f: Flight, hitOf: Struck -> PlannedHit, origin: Vec2,
                     plan: seq<PlannedHit>)
    requires FlightLaw(m, scene, f, hitOf, origin, plan)
    ensures CountsTheWay(m, scene, f, hitOf, origin, plan)
  {
    if plan != [] {
      var n: nat, s :| HitsAt(m, scene, f, hitOf, origin, plan, n, s);
      CountsAsWay(m, scene, f, hitOf, origin, plan, n, s, Flown(f.speed, n));
    }
  }

  lemma CountsAsWay(m: Maths, scene: Scene, f: Flight, hitOf: Struck -> PlannedHit, origin: Vec2,
                    plan: seq<PlannedHit>, n: nat, s: Struck, way: real)
    requires n < f.ttlTicks && StrikesAt(m, scene, f, origin, n, s)
    requires way == Flown(f.speed, n) && plan == [hitOf(s.(along := way + s.along))]
    ensures HitsAfter(m, scene, f, hitOf, origin, plan, n, s)
  {
    FlownIsProduct(f.speed, n);
    assert way == WayAfter(f.speed, n);
  }

  /** A flight strikes at most one tick and one entity. */
  lemma StrikeIsUnique(m: Maths, scene: Scene, f: Flight, origin: Vec2, n: nat, s: Struck, k: nat, t: Struck)
    requires StrikesAt(m, scene, f, origin, n, s) && StrikesAt(m, scene, f, origin, k, t)
    ensures n == k && s == t
  {
    StrikesOnce(m, scene, f, origin, n, s, k, t);
    StrikesOnce(m, scene, f, origin, k, t, n, s);
  }

  lemma StrikesOnce(m: Maths, scene: Scene, f: Flight, origin: Vec2, n: nat, s: Struck, k: nat, t: Struck)
    requires StrikesAt(m, scene, f, origin, n, s) && StrikesAt(m, scene, f, origin, k, t)
    ensures n <= k
  {
    StrikeIsNotOpen(m, scene, f, origin, k, t);
  }

  lemma StrikeIsNotOpen(m: Maths, scene: Scene, f: Flight, origin: Vec2, n: nat, s: Struck)
    ensures StrikesAt(m, scene, f, origin, n, s) || StopsAt(m, scene, f, origin, n) ==> !Open(m, scene, f, origin, n)
  {
  }

  /** A flight that plans no hit has no striking tick in its lifetime. */
  lemma NoStrikeUnlessPlanned(m: Maths, scene: Scene, f: Flight, hitOf: Struck -> PlannedHit, origin: Vec2, n: nat,
                              s: Struck)
    requires FlightLaw(m, scene, f, hitOf, origin, []) && n < f.ttlTicks
    ensures !StrikesAt(m, scene, f, origin, n, s)
  {
    StrikeIsNotOpen(m, scene, f, origin, n, s);
    if k: nat :| k < f.ttlTicks && StopsAt(m, scene, f, origin, k) {
      StrikeIsNotOpen(m, scene, f, origin, k, s);
    }
  }

  /** The striking tick and entity, as a question about a flight. */
  ghost function StrikesOf(m: Maths, scene: Scene, f: Flight, origin: Vec2): (nat, Struck) -> bool
  {
    (n: nat, s: Struck) => StrikesAt(m, scene, f, origin, n, s)
  }

  /** Every strike within the lifetime passes a test. */
  ghost predicate OnStrikes(strikes: (nat, Struck) -> bool, ttl: int, test: (nat, Struck) -> bool)
  {
    forall n: nat, s :: n < ttl && strikes(n, s) ==> test(n, s)
  }

  lemma OnTheOneStrike(m: Maths, scene: Scene, f: Flight, origin: Vec2, ttl: int, test: (nat, Struck) -> bool, n: nat,
                       s: Struck)
    requires n < ttl && StrikesAt(m, scene, f, origin, n, s)
    ensures OnStrikes(StrikesOf(m, scene, f, origin), ttl, test) <==> test(n, s)
  {
    var strikes := StrikesOf(m, scene, f, origin);
    forall k: nat, t | strikes(k, t) ensures k == n && t == s {
      StrikeIsUnique(m, scene, f, origin, n, s, k, t);
    }
  }

  /** No tick of the lifetime strikes anybody. */
  ghost predicate NeverStrikes(m: Maths, scene: Scene, f: Flight, origin: Vec2)
  {
    forall n: nat, s :: n < f.ttlTicks ==> !StrikesOf(m, scene, f, origin)(n, s)
  }

  lemma NothingStruck(m: Maths, scene: Scene, f: Flight, hitOf: Struck -> PlannedHit, origin: Vec2)
    requires FlightLaw(m, scene, f, hitOf, origin, [])
    ensures NeverStrikes(m, scene, f, origin)
  {
    forall n: nat, s | n < f.ttlTicks ensures !StrikesOf(m, scene, f, origin)(n, s) {
      NoStrikeUnlessPlanned(m, scene, f, hitOf, origin, n, s);
    }
  }

  /** What is struck does not depend on how distance is counted. */
  lemma SameStrikes(m: Maths, scene: Scene, f: Flight, speed: real, origin: Vec2, n: nat, s: Struck)
    ensures StrikesAt(m, scene, f.(speed := speed), origin, n, s) <==> StrikesAt(m, scene, f, origin, n, s)
  {
    var g := f.(speed := speed);
    forall k: nat ensures Open(m, scene, g, origin, k) <==> Open(m, scene, f, origin, k) {
    }
  }

  /** Two plans of one flight that count distance differently have the same strike, if any. */
  lemma TwoCounts(m: Maths, scene: Scene, f: Flight, speed: real, hitOf: Struck -> PlannedHit, origin: Vec2,
                  a: seq<PlannedHit>, b: seq<PlannedHit>)
      returns (n: nat, s: Struck)
    requires FlightLaw(m, scene, f.(speed := speed), hitOf, origin, a) && FlightLaw(m, scene, f, hitOf, origin, b)
    ensures a == [] <==> b == []
    ensures a == [] ==> NeverStrikes(m, scene, f, origin)
    ensures a != [] ==> HitsAt(m, scene, f.(speed := speed), hitOf, origin, a, n, s)
                        && HitsAt(m, scene, f, hitOf, origin, b, n, s)
  {
    var g := f.(speed := speed);
    n, s := 0, Struck(0, origin, 0.0);
    if a != [] && b != [] {
      n, s := SamePlannedStrike(m, scene, f, speed, hitOf, origin, a, b);
    } else {
      NeverOrBoth(m, scene, f, speed, hitOf, origin, a, b);
    }
  }

  lemma SamePlannedStrike(m: Maths, scene: Scene, f: Flight, speed: real, hitOf: Struck -> PlannedHit, origin: Vec2,
                          a: seq<PlannedHit>, b: seq<PlannedHit>)
      returns (n: nat, s: Struck)
    requires FlightLaw(m, scene, f.(speed := speed), hitOf, origin, a)
    requires FlightLaw(m, scene, f, hitOf, origin, b) && a != [] && b != []
    ensures HitsAt(m, scene, f.(speed := speed), hitOf, origin, a, n, s) && HitsAt(m, scene, f, hitOf, origin, b, n, s)
  {
    n, s :| HitsAt(m, scene, f, hitOf, origin, b, n, s);
    var k: nat, t :| HitsAt(m, scene, f.(speed := speed), hitOf, origin, a, k, t);
    SameStrikes(m, scene, f, speed, origin, k, t);
    StrikeIsUnique(m, scene, f, origin, n, s, k, t);
  }

  lemma NeverOrBoth(m: Maths, scene: Scene, f: Flight, speed: real, hitOf: Struck -> PlannedHit, origin: Vec2,
                    a: seq<PlannedHit>, b: seq<PlannedHit>)
    requires FlightLaw(m, scene, f.(speed := speed), hitOf, origin, a) && FlightLaw(m, scene, f, hitOf, origin, b)
    requires a == [] || b == []
    ensures a == [] && b == [] && NeverStrikes(m, scene, f, origin)
  {
    NeverCarries(m, scene, f, speed, origin);
    if b == [] {
      NothingStruck(m, scene, f, hitOf, origin);
    } else {
      NothingStruck(m, scene, f.(speed := speed), hitOf, origin);
    }
    NothingPlanned(m, scene, f.(speed := speed), hitOf, origin, a);
    NothingPlanned(m, scene, f, hitOf, origin, b);
  }

  lemma NothingPlanned(m: Maths, scene: Scene, f: Flight, hitOf: Struck -> PlannedHit, origin: Vec2,
                       plan: seq<PlannedHit>)
    requires FlightLaw(m, scene, f, hitOf, origin, plan) && NeverStrikes(m, scene, f, origin)
    ensures plan == []
  {
    if plan != [] {
      var n: nat, s :| HitsAt(m, scene, f, hitOf, origin, plan, n, s);
      assert false by {
        StrikesMeans(m, scene, f, origin, n, s);
      }
    }
  }

  lemma StrikesMeans(m: Maths, scene: Scene, f: Flight, origin: Vec2, n: nat, s: Struck)
    ensures StrikesOf(m, scene, f, origin)(n, s) == StrikesAt(m, scene, f, origin, n, s)
  {
  }

  lemma NeverCarries(m: Maths, scene: Scene, f: Flight, speed: real, origin: Vec2)
    ensures NeverStrikes(m, scene, f.(speed := speed), origin) <==> NeverStrikes(m, scene, f, origin)
  {
    var g := f.(speed := speed);
    forall n: nat, s ensures StrikesOf(m, scene, g, origin)(n, s) == StrikesOf(m, scene, f, origin)(n, s) {
      StrikesMeans(m, scene, f, origin, n, s);
      StrikesMeans(m, scene, g, origin, n, s);
      SameStrikes(m, scene, f, speed, origin, n, s);
    }
  }

  lemma NeverMeansAlways(m: Maths, scene: Scene, f: Flight, origin: Vec2, test: (nat, Struck) -> bool)
    requires NeverStrikes(m, scene, f, origin)
    ensures OnStrikes(StrikesOf(m, scene, f, origin), f.ttlTicks, test)
  {
  }

  // ----- pellets -----

  /** The ray of the pellet that draws float `i`. */
  function PelletShot(m: Maths, d: DamageDelivery, shot: Shot, draws: Draws, i: nat): Shot
    requires d.PelletDelivery?
  {
    shot.(aim := PelletDirection(m, shot, d.spread, FloatAt(draws, i)))
  }

  /** What one pellet hits: the nearest clear entity of its ray, or nobody. */
  ghost predicate PelletLaw(m: Maths, scene: Scene, d: DamageDelivery, shot: Shot, hits: seq<PlannedHit>)
    requires d.PelletDelivery?
  {
    var probe := Ray(shot.origin, shot.aim, d.range, d.hitRadius);
    && (hits == [] <==> forall s :: Reaches(m, scene, probe, s) ==> !Clear(scene, shot.origin, s))
    && (hits != [] ==> exists s :: NearestClear(m, scene, shot.origin, probe, s)
                                   && hits == [HitFrom(d.damage, d.falloff, d.knockback, shot.origin)(s)])
  }

  lemma PelletHitsNearestClear(m: Maths, scene: Scene, d: DamageDelivery, shot: Shot, draws: Draws, i: nat)
    requires Lawful(m) && Faithful(scene) && d.PelletDelivery?
    ensures PelletLaw(m, scene, d, PelletShot(m, d, shot, draws, i), PelletHits(m, scene, d, shot, draws)(i))
  {
    RayHitsNearestClear(m, scene, PelletShot(m, d, shot, draws, i), d.damage, d.range, d.hitRadius, d.falloff,
                        d.knockback);
  }

  function Flatten(parts: seq<seq<PlannedHit>>): seq<PlannedHit>
  {
    if parts == [] then [] else parts[0] + Flatten(parts[1..])
  }

  lemma {:induction false} PelletsInTurn(pelletHits: nat -> seq<PlannedHit>, pelletCount: int, cursor: nat,
      pellet: int, parts: seq<seq<PlannedHit>>)
    requires |parts| == (if pellet < pelletCount then pelletCount - pellet else 0)
    requires forall i :: 0 <= i < |parts| ==> parts[i] == pelletHits(cursor + i)
    ensures PlanPellets(pelletHits, pelletCount, cursor, pellet) == Flatten(parts)
    decreases pelletCount - pellet
  {
    if pellet < pelletCount {
      PelletsInTurn(pelletHits, pelletCount, cursor + 1, pellet + 1, parts[1..]);
    }
  }

  /** What `count` pellets hit, by the draw that jitters each. */
  function PartsOf(hits: nat -> seq<PlannedHit>, count: nat, cursor: nat): seq<seq<PlannedHit>>
  {
    seq(count, i requires 0 <= i < count => hits(cursor + i))
  }

  /** A spread is the hits of its pellets one after the other, pellet `i` jittered by draw `i` from the cursor on. */
  lemma SpreadIsItsPellets(m: Maths, scene: Scene, d: DamageDelivery, shot: Shot, draws: Draws, cursor: nat)
    requires d.PelletDelivery?
    ensures Plan(m, scene, d, shot, draws,
                 cursor) == Flatten(PartsOf(PelletHits(m, scene, d, shot, draws), FloatsDrawn(d), cursor))
  {
    var hits := PelletHits(m, scene, d, shot, draws);
    PelletsInTurn(hits, d.pelletCount, cursor, 0, PartsOf(hits, FloatsDrawn(d), cursor));
  }
}
