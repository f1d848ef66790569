/**
 The resolvers of packages/simulation/src/delivery.ts in their own, imperative form: they
 narrow candidates, test them, and write health through the port as they go. Each is proved
 to have exactly the effect of landing the hits its delivery plans.
 */
module Resolvers {
  import opened Wrappers
  import opened Sorting
  import opened Geometry
  import opened Damage
  import opened World
  import opened Targeting
  import opened Delivery
  import opened BounceLaws
  import opened PlanLaws
  import opened Impact
  import opened Rng

  class MutableResolution {
    var outcomes: seq<DamageOutcome>
    var knockbacks: seq<Knockback>

    constructor ()
      ensures outcomes == [] && knockbacks == []
    {
      outcomes, knockbacks := [], [];
    }
  }

  datatype DeliveryContext = DeliveryContext(m: Maths, view: View, source: DamageSource, shot: Shot, policy: Policy,
                                             rng: SeededRng)

  /** What a resolution starts from, and what landing a list of hits from there amounts to. */
  datatype Start = Start(roster: seq<EntityId>, outcomes: seq<DamageOutcome>, knockbacks: seq<Knockback>,
                         effect: seq<PlannedHit> -> Resolution)

  ghost predicate LandsNext(ctx: DeliveryContext, effect: seq<PlannedHit> -> Resolution, hits: seq<PlannedHit>,
                            hit: PlannedHit)
  {
    effect(hits + [hit]) == Join(effect(hits),
                                 LandHit(Impulse(ctx.m), effect(hits).vitals, ctx.view.world.teams, ctx.source,
                                         ctx.policy, hit))
  }

  ghost predicate Lands(ctx: DeliveryContext, effect: seq<PlannedHit> -> Resolution)
  {
    forall hits, hit :: LandsNext(ctx, effect, hits, hit)
  }

  /** Since `start`, exactly `hits` were landed and recorded. */
  ghost predicate Landed(ctx: DeliveryContext, out: MutableResolution, start: Start, hits: seq<PlannedHit>)
    reads ctx.view.world, out
  {
    var world := ctx.view.world;
    var r := start.effect(hits);
    && Lands(ctx, start.effect)
    && world.Valid() && world.roster == start.roster
    && world.vitals == r.vitals
    && out.outcomes == start.outcomes + r.outcomes
    && out.knockbacks == start.knockbacks + r.knockbacks
  }

  /** Land one more hit. */
  method ApplyHit(ctx: DeliveryContext, out: MutableResolution, hit: PlannedHit, ghost start: Start,
                  ghost landed: seq<PlannedHit>)
    requires Landed(ctx, out, start, landed)
    modifies ctx.view.world`vitals, ctx.view.world`roster, out
    ensures Landed(ctx, out, start, landed + [hit])
  {
    assert LandsNext(ctx, start.effect, landed, hit);
    var outcome := ctx.view.ApplyDamage(hit.target, hit.amount, ctx.source, ctx.policy);
    out.outcomes := out.outcomes + [outcome];
    out.knockbacks := out.knockbacks + KnockbackOf(Impulse(ctx.m), hit, outcome);
  }

  /** A precise test over narrowed candidates, in candidate order. */
  method FindStruck(view: View, box: Box, test: Vec2 -> Option<real>) returns (struck: seq<Struck>)
    requires view.world.Valid()
    modifies view.world`index
    ensures view.world.Valid()
    ensures struck == Accept(test, view.world.positions, Candidates(view.SceneOf(), box))
  {
    var candidates := view.CandidatesIn(box);
    struck := [];
    var positions := view.world.positions;
    var i := 0;
    while i < |candidates|
      invariant 0 <= i <= |candidates|
      invariant struck + Accept(test, positions, candidates[i..]) == Accept(test, positions, candidates)
    {
      assert candidates[i..][1..] == candidates[i + 1..];
      if candidates[i] in positions {
        var along := test(positions[candidates[i]]);
        if along.Some? {
          struck := struck + [Struck(candidates[i], positions[candidates[i]], along.value)];
        }
      }
      i := i + 1;
    }
  }

  method RayCandidates(ctx: DeliveryContext, origin: Vec2, direction: Vec2, range: real, hitRadius: real)
      returns (struck: seq<Struck>)
    requires ctx.view.world.Valid()
    modifies ctx.view.world`index
    ensures ctx.view.world.Valid()
    ensures struck == RayStruck(ctx.m, ctx.view.SceneOf(), origin, direction, range, hitRadius)
  {
    var probe := Ray(origin, direction, range, hitRadius);
    struck := FindStruck(ctx.view, Bounds(ctx.m, probe), Test(ctx.m, probe));
    struck := SortBy(struck, NotAfter);
  }

  /** Hit the first of the sorted candidates in line of sight. */
  method HitFirstClear(ctx: DeliveryContext, out: MutableResolution, struck: seq<Struck>, hitOf: Struck -> PlannedHit,
                       ghost start: Start, ghost landed: seq<PlannedHit>)
    requires Landed(ctx, out, start, landed)
    modifies ctx.view.world`vitals, ctx.view.world`roster, out
    ensures Landed(ctx, out, start, landed + PlanRay(ctx.view.world.blockers, ctx.shot.origin, hitOf, struck))
  {
    var blockers, origin := ctx.view.world.blockers, ctx.shot.origin;
    var i := 0;
    while i < |struck|
      invariant 0 <= i <= |struck|
      invariant unchanged(ctx.view.world) && unchanged(out)
      invariant PlanRay(blockers, origin, hitOf, struck[i..]) == PlanRay(blockers, origin, hitOf, struck)
    {
      assert struck[i..][1..] == struck[i + 1..];
      var blocked := ProjectileBlocked(blockers, origin, struck[i].position, 0.0);
      if !blocked {
        ApplyHit(ctx, out, hitOf(struck[i]), start, landed);
        return;
      }
      i := i + 1;
    }
    assert landed + [] == landed;
  }

  method ResolveSingleRay(ctx: DeliveryContext, out: MutableResolution, damage: real, range: real, hitRadius: real,
                          falloff: Falloff, knockback: real, ghost start: Start)
    requires Landed(ctx, out, start, [])
    modifies ctx.view.world, out
    ensures Landed(ctx, out, start,
                   PlanSingleRay(ctx.m, old(ctx.view.SceneOf()), ctx.shot,
                                 damage, range, hitRadius, falloff, knockback))
  {
    var struck := RayCandidates(ctx, ctx.shot.origin, ctx.shot.aim, range, hitRadius);
    var hitOf := HitFrom(damage, falloff, knockback, ctx.shot.origin);
    HitFirstClear(ctx, out, struck, hitOf, start, []);
    ghost var plan := PlanRay(ctx.view.world.blockers, ctx.shot.origin, hitOf, struck);
    assert [] + plan == plan;
  }

  /** Hit the sorted candidates in turn until one is shielded or enough are hit. */
  method HitThrough(ctx: DeliveryContext, out: MutableResolution, struck: seq<Struck>, hitOf: Struck -> PlannedHit,
                    maxTargets: int, ghost start: Start)
    requires Landed(ctx, out, start, [])
    modifies ctx.view.world`vitals, ctx.view.world`roster, out
    ensures Landed(ctx, out, start, PlanPierce(ctx.view.world.blockers, ctx.shot.origin, hitOf, maxTargets, struck, 0))
  {
    var blockers, origin := ctx.view.world.blockers, ctx.shot.origin;
    ghost var plan, landed: seq<PlannedHit> := PlanPierce(blockers, origin, hitOf, maxTargets, struck, 0), [];
    var hits := 0;
    var i := 0;
    while i < |struck|
      invariant 0 <= i <= |struck|
      invariant landed + PlanPierce(blockers, origin, hitOf, maxTargets, struck[i..], hits) == plan
      invariant Landed(ctx, out, start, landed)
    {
      assert struck[i..][1..] == struck[i + 1..];
      var blocked := ProjectileBlocked(blockers, origin, struck[i].position, 0.0);
      if blocked {
        break;
      }
      var hit := hitOf(struck[i]);
      ApplyHit(ctx, out, hit, start, landed);
      hits := hits + 1;
      if hits >= maxTargets {
        assert [hit] + [] == [hit];
        return;
      }
      Regroup(landed, [hit], PlanPierce(blockers, origin, hitOf, maxTargets, struck[i + 1..], hits));
      landed := landed + [hit];
      i := i + 1;
    }
    assert landed == plan;
  }

  /** Hit every candidate in turn, sparing the shielded when sight is required. */
  method HitArea(ctx: DeliveryContext, out: MutableResolution, struck: seq<Struck>, hitOf: Struck -> PlannedHit,
                 sight: bool, ghost start: Start)
    requires Landed(ctx, out, start, [])
    modifies ctx.view.world`vitals, ctx.view.world`roster, out
    ensures Landed(ctx, out, start, PlanArea(ctx.view.world.blockers, ctx.shot.origin, hitOf, sight, struck))
  {
    var blockers, origin := ctx.view.world.blockers, ctx.shot.origin;
    ghost var plan, landed: seq<PlannedHit> := PlanArea(blockers, origin, hitOf, sight, struck), [];
    var i := 0;
    while i < |struck|
      invariant 0 <= i <= |struck|
      invariant landed + PlanArea(blockers, origin, hitOf, sight, struck[i..]) == plan
      invariant Landed(ctx, out, start, landed)
    {
      assert struck[i..][1..] == struck[i + 1..];
      ghost var rest := PlanArea(blockers, origin, hitOf, sight, struck[i + 1..]);
      var blocked := ProjectileBlocked(blockers, origin, struck[i].position, 0.0);
      if sight && blocked {
        assert [] + rest == rest;
      } else {
        var hit := hitOf(struck[i]);
        Regroup(landed, [hit], rest);
        ApplyHit(ctx, out, hit, start, landed);
        landed := landed + [hit];
      }
      i := i + 1;
    }
    assert landed == plan;
  }

  ghost predicate PelletAt(m: Maths, scene: Scene, d: DamageDelivery, shot: Shot, draws: Draws,
                           pelletHits: nat -> seq<PlannedHit>, cursor: nat)
  {
    d.PelletDelivery? && pelletHits(cursor) == PelletHits(m, scene, d, shot, draws)(cursor)
  }

  ghost predicate PelletsFollow(m: Maths, scene: Scene, d: DamageDelivery, shot: Shot, draws: Draws,
                                pelletHits: nat -> seq<PlannedHit>)
  {
    d.PelletDelivery? && forall cursor :: PelletAt(m, scene, d, shot, draws, pelletHits, cursor)
  }

  /** What has landed and what is left make up the plan. */
  ghost predicate PelletsLeft(pelletHits: nat -> seq<PlannedHit>, pelletCount: int, cursor: nat, pellet: int,
                              landed: seq<PlannedHit>, plan: seq<PlannedHit>)
  {
    if pellet < pelletCount then landed + PlanPellets(pelletHits, pelletCount, cursor, pellet) == plan
    else landed == plan
  }

  lemma PelletsGoOn(pelletHits: nat -> seq<PlannedHit>, pelletCount: int, cursor: nat, pellet: int,
                    landed: seq<PlannedHit>, plan: seq<PlannedHit>)
    requires pellet < pelletCount && PelletsLeft(pelletHits, pelletCount, cursor, pellet, landed, plan)
    ensures PelletsLeft(pelletHits, pelletCount, cursor + 1, pellet + 1, landed + pelletHits(cursor), plan)
  {
    Regroup(landed, pelletHits(cursor), PlanPellets(pelletHits, pelletCount, cursor + 1, pellet + 1));
  }

  /** One jittered ray. */
  method FirePellet(ctx: DeliveryContext, out: MutableResolution, d: DamageDelivery, ghost scene: Scene,
                    ghost pelletHits: nat -> seq<PlannedHit>, ghost start: Start, ghost landed: seq<PlannedHit>)
    requires Landed(ctx, out, start, landed) && ctx.view.SceneOf() == scene
    requires PelletsFollow(ctx.m, scene, d, ctx.shot, ctx.rng.draws, pelletHits)
    modifies ctx.view.world, out, ctx.rng
    ensures Landed(ctx, out, start, landed + pelletHits(old(ctx.rng.cursor)))
    ensures ctx.rng.cursor == old(ctx.rng.cursor) + 1 && ctx.view.SceneOf() == scene
  {
    assert PelletAt(ctx.m, scene, d, ctx.shot, ctx.rng.draws, pelletHits, ctx.rng.cursor);
    var u := ctx.rng.NextFloat();
    var direction := PelletDirection(ctx.m, ctx.shot, d.spread, u);
    var struck := RayCandidates(ctx, ctx.shot.origin, direction, d.range, d.hitRadius);
    HitFirstClear(ctx, out, struck, HitFrom(d.damage, d.falloff, d.knockback, ctx.shot.origin), start, landed);
  }

  method ResolvePellet(ctx: DeliveryContext, out: MutableResolution, d: DamageDelivery, ghost scene: Scene,
                       ghost pelletHits: nat -> seq<PlannedHit>, ghost start: Start)
    requires Landed(ctx, out, start, []) && ctx.view.SceneOf() == scene
    requires PelletsFollow(ctx.m, scene, d, ctx.shot, ctx.rng.draws, pelletHits)
    modifies ctx.view.world, out, ctx.rng
    ensures Landed(ctx, out, start, PlanPellets(pelletHits, d.pelletCount, old(ctx.rng.cursor), 0))
    ensures ctx.rng.cursor == old(ctx.rng.cursor) + FloatsDrawn(d)
  {
    FirePellets(ctx, out, d, scene, pelletHits, start, PlanPellets(pelletHits, d.pelletCount, ctx.rng.cursor, 0));
  }

  /** The pellets one after the other, as long as any of the plan is left. */
  method FirePellets(ctx: DeliveryContext, out: MutableResolution, d: DamageDelivery, ghost scene: Scene,
                     ghost pelletHits: nat -> seq<PlannedHit>, ghost start: Start, ghost plan: seq<PlannedHit>)
    requires Landed(ctx, out, start, []) && ctx.view.SceneOf() == scene
    requires PelletsFollow(ctx.m, scene, d, ctx.shot, ctx.rng.draws, pelletHits)
    requires PelletsLeft(pelletHits, d.pelletCount, ctx.rng.cursor, 0, [], plan)
    modifies ctx.view.world, out, ctx.rng
    ensures Landed(ctx, out, start, plan)
    ensures ctx.rng.cursor == old(ctx.rng.cursor) + FloatsDrawn(d)
  {
    ghost var first := ctx.rng.cursor;
    ghost var landed: seq<PlannedHit> := [];
    var pellet := 0;
    while pellet < d.pelletCount
      invariant 0 <= pellet && (pellet <= d.pelletCount || pellet == 0)
      invariant ctx.rng.cursor == first + pellet
      invariant PelletsLeft(pelletHits, d.pelletCount, first + pellet, pellet, landed, plan)
      invariant Landed(ctx, out, start, landed) && ctx.view.SceneOf() == scene
    {
      PelletsGoOn(pelletHits, d.pelletCount, first + pellet, pellet, landed, plan);
      FirePellet(ctx, out, d, scene, pelletHits, start, landed);
      landed := landed + pelletHits(first + pellet);
      pellet := pellet + 1;
    }
  }

  /** The nearest swept target of one tick, its distance counted from the start of the flight. */
  method FindSweptHit(m: Maths, view: View, radius: real, from: Vec2, to: Vec2, travelled: real)
      returns (best: Option<Struck>)
    requires view.world.Valid()
    modifies view.world`index
    ensures view.world.Valid()
    ensures best == SweptHit(m, view.SceneOf(), radius, from, to, travelled)
  {
    var probe := Sweep(from, to, radius);
    best := NearestOf(view, Bounds(m, probe), Test(m, probe), travelled);
  }

  function Later(s: Option<Struck>, travelled: real): Option<Struck>
  {
    if s.None? then None else Some(s.value.(along := travelled + s.value.along))
  }

  method NearestOf(view: View, box: Box, test: Vec2 -> Option<real>, travelled: real) returns (best: Option<Struck>)
    requires view.world.Valid()
    modifies view.world`index
    ensures view.world.Valid()
    ensures best == Later(NearestFrom(None, Accept(test, view.world.positions, Candidates(view.SceneOf(), box))),
                          travelled)
  {
    var candidates := view.CandidatesIn(box);
    var positions := view.world.positions;
    best := None;
    ghost var plain: Option<Struck> := None;
    var i := 0;
    while i < |candidates|
      invariant 0 <= i <= |candidates|
      invariant best == Later(plain, travelled)
      invariant NearestFrom(plain, Accept(test, positions,
                                          candidates[i..])) == NearestFrom(None, Accept(test, positions, candidates))
    {
      var entity := candidates[i];
      assert candidates[i..][1..] == candidates[i + 1..];
      if entity in positions {
        var reached := test(positions[entity]);
        if reached.Some? {
          var along := travelled + reached.value;
          ghost var rest := Accept(test, positions, candidates[i + 1..]);
          ghost var s := Struck(entity, positions[entity], reached.value);
          assert ([s] + rest)[1..] == rest;
          plain := Better(plain, s);
          if best.None? || along < best.value.along || (along == best.value.along && entity < best.value.entity) {
            best := Some(Struck(entity, positions[entity], along));
          }
        }
      }
      i := i + 1;
    }
  }

  ghost predicate SweepAt(m: Maths, scene: Scene, radius: real, sweep: Sweeper, from: Vec2, to: Vec2, travelled: real)
  {
    sweep(from, to, travelled) == SweptHit(m, scene, radius, from, to, travelled)
  }

  ghost predicate SweepFollows(m: Maths, scene: Scene, radius: real, sweep: Sweeper)
  {
    forall from, to, travelled :: SweepAt(m, scene, radius, sweep, from, to, travelled)
  }

  method FindSwept(m: Maths, view: View, radius: real, from: Vec2, to: Vec2, travelled: real, ghost scene: Scene,
                   ghost sweep: Sweeper) returns (best: Option<Struck>)
    requires view.world.Valid() && view.SceneOf() == scene && SweepFollows(m, scene, radius, sweep)
    modifies view.world`index
    ensures view.world.Valid() && view.SceneOf() == scene
    ensures best == sweep(from, to, travelled)
  {
    assert SweepAt(m, scene, radius, sweep, from, to, travelled);
    best := FindSweptHit(m, view, radius, from, to, travelled);
  }

  method ResolveProjectile(ctx: DeliveryContext, out: MutableResolution, f: Flight, hitOf: Struck -> PlannedHit,
                           ghost scene: Scene, ghost sweep: Sweeper, ghost start: Start)
    requires Landed(ctx, out, start, []) && ctx.view.SceneOf() == scene && SweepFollows(ctx.m, scene, f.radius, sweep)
    modifies ctx.view.world, out
    ensures Landed(ctx, out, start, PlanFlight(scene.blockers, sweep, f, hitOf, ctx.shot.origin, 0.0, 0))
  {
    ghost var plan := PlanFlight(scene.blockers, sweep, f, hitOf, ctx.shot.origin, 0.0, 0);
    var current, travelled := ctx.shot.origin, 0.0;
    var tick := 0;
    while tick < f.ttlTicks
      invariant Landed(ctx, out, start, []) && ctx.view.SceneOf() == scene
      invariant PlanFlight(scene.blockers, sweep, f, hitOf, current, travelled, tick) == plan
    {
      var next := AddVec(current, f.step);
      var blocked := ProjectileBlocked(ctx.view.world.blockers, current, next, f.radius);
      if blocked {
        return;
      }
      var best := FindSwept(ctx.m, ctx.view, f.radius, current, next, travelled, scene, sweep);
      if best.Some? {
        ApplyHit(ctx, out, hitOf(best.value), start, []);
        assert [] + [hitOf(best.value)] == plan;
        return;
      }
      travelled := travelled + f.speed;
      current := next;
      tick := tick + 1;
    }
  }

  method NearestBlockerEntry(blockers: seq<Blocker>, from: Vec2, to: Vec2) returns (best: Option<BoxEntry>)
    ensures best == NearestEntry(None, blockers, from, to)
    ensures EarliestWall(blockers, from, to, best)
  {
    NearestEntryIsEarliest(blockers, from, to);
    best := None;
    var i := 0;
    while i < |blockers|
      invariant 0 <= i <= |blockers|
      invariant NearestEntry(best, blockers[i..], from, to) == NearestEntry(None, blockers, from, to)
    {
      assert blockers[i..][1..] == blockers[i + 1..];
      var entry := SegmentAabbEntry(from, to, blockers[i]);
      if blockers[i].blocksProjectiles && entry.Some? && (best.None? || entry.value.t < best.value.t) {
        best := entry;
      }
      i := i + 1;
    }
  }

  /** Lands the hit on the nearest entity met on the first leg that meets anybody. */
  method ResolveBounce(ctx: DeliveryContext, out: MutableResolution, d: DamageDelivery, ghost start: Start)
    requires Landed(ctx, out, start, []) && d.BounceDelivery?
    modifies ctx.view.world, out
    ensures var scene, first := old(ctx.view.SceneOf()),
                                Leg(ctx.shot.origin, NormalizeVec(ctx.m, ctx.shot.aim), d.range);
            var plan := PlanBounces(ctx.m, scene, d, first, 0);
            && Landed(ctx, out, start, plan)
            && (Lawful(ctx.m) ==> BounceLaw(ctx.m, scene, d, first, 0, plan))
  {
    ghost var scene := ctx.view.SceneOf();
    var first := Leg(ctx.shot.origin, NormalizeVec(ctx.m, ctx.shot.aim), d.range);
    ctx.view.SceneIsFaithful();
    FlyLegs(ctx, out, d, first, start);
    if Lawful(ctx.m) {
      BounceHitsTheFirstMet(ctx.m, scene, d, first);
    }
  }

  method FlyLegs(ctx: DeliveryContext, out: MutableResolution, d: DamageDelivery, first: Leg, ghost start: Start)
    requires Landed(ctx, out, start, []) && d.BounceDelivery?
    modifies ctx.view.world, out
    ensures Landed(ctx, out, start, PlanBounces(ctx.m, old(ctx.view.SceneOf()), d, first, 0))
  {
    ghost var scene := ctx.view.SceneOf();
    ghost var plan := PlanBounces(ctx.m, scene, d, first, 0);
    var leg := first;
    var bounce := 0;
    while bounce <= d.maxBounces
      invariant Landed(ctx, out, start, []) && ctx.view.SceneOf() == scene
      invariant PlanBounces(ctx.m, scene, d, leg, bounce) == plan
      decreases d.maxBounces - bounce
    {
      var wall := NearestBlockerEntry(ctx.view.world.blockers, leg.origin, LegEnd(leg));
      var struck := RayCandidates(ctx, leg.origin, leg.direction, leg.remaining, d.hitRadius);
      if struck != [] && !BeyondWall(struck[0].along, leg.remaining, wall) {
        var hit := HitFrom(d.damage, d.falloff, d.knockback, leg.origin)(struck[0]);
        ApplyHit(ctx, out, hit, start, []);
        assert [] + [hit] == plan;
        return;
      }
      if wall.None? {
        return;
      }
      leg := NextLeg(ctx.m, leg, wall.value);
      if leg.remaining <= 0.0 {
        return;
      }
      bounce := bounce + 1;
    }
  }

  lemma LandingIsApplyHits(ctx: DeliveryContext, vitals: Vitals, effect: seq<PlannedHit> -> Resolution)
    requires forall hits ::
               effect(hits) == ApplyHits(Impulse(ctx.m), vitals, ctx.view.world.teams, ctx.source, ctx.policy, hits)
    ensures Lands(ctx, effect)
  {
    var teams := ctx.view.world.teams;
    forall hits, hit ensures LandsNext(ctx, effect, hits, hit) {
      ApplyHitsAppend(Impulse(ctx.m), vitals, teams, ctx.source, ctx.policy, hits, [hit]);
      ApplyOneHit(Impulse(ctx.m), effect(hits).vitals, teams, ctx.source, ctx.policy, hit);
    }
  }

  /** Land the plan of a delivery through whatever path its family takes. */
  method LandDelivery(delivery: DamageDelivery, ctx: DeliveryContext)
      returns (outcomes: seq<DamageOutcome>, knockbacks: seq<Knockback>)
    requires ctx.view.world.Valid()
    modifies ctx.view.world, ctx.rng
    ensures ctx.view.world.Valid() && ctx.view.world.roster == old(ctx.view.world.roster)
    ensures var plan := Plan(ctx.m, old(ctx.view.SceneOf()), delivery, ctx.shot, ctx.rng.draws, old(ctx.rng.cursor));
            Resolution(ctx.view.world.vitals, outcomes, knockbacks) ==
            ApplyHits(Impulse(ctx.m), old(ctx.view.world.vitals), ctx.view.world.teams, ctx.source, ctx.policy, plan)
    ensures ctx.rng.cursor == old(ctx.rng.cursor) + FloatsDrawn(delivery)
  {
    var out := new MutableResolution();
    ghost var vitals, teams := ctx.view.world.vitals, ctx.view.world.teams;
    ghost var effect := (hits: seq<PlannedHit>) =>
      ApplyHits(Impulse(ctx.m), vitals, teams, ctx.source, ctx.policy, hits);
    LandingIsApplyHits(ctx, vitals, effect);
    Dispatch(delivery, ctx, out, ctx.view.SceneOf(), Start(ctx.view.world.roster, [], [], effect));
    outcomes, knockbacks := out.outcomes, out.knockbacks;
  }

  /**
   Resolve one fired delivery: whatever path it takes through the index, health, outcomes
   and impulses end up as if exactly the planned hits had been landed in order, and the plan is what
   the delivery's family promises over the scene at the start.
   */
  method ResolveDelivery(delivery: DamageDelivery, ctx: DeliveryContext)
      returns (outcomes: seq<DamageOutcome>, knockbacks: seq<Knockback>)
    requires ctx.view.world.Valid()
    modifies ctx.view.world, ctx.rng
    ensures ctx.view.world.Valid() && ctx.view.world.roster == old(ctx.view.world.roster)
    ensures var plan := Plan(ctx.m, old(ctx.view.SceneOf()), delivery, ctx.shot, ctx.rng.draws, old(ctx.rng.cursor));
            && Resolution(ctx.view.world.vitals, outcomes, knockbacks) ==
               ApplyHits(Impulse(ctx.m), old(ctx.view.world.vitals), ctx.view.world.teams, ctx.source, ctx.policy, plan)
            && (Lawful(ctx.m) ==>
                  PlanLaw(ctx.m, old(ctx.view.SceneOf()), delivery, ctx.shot, ctx.rng.draws, old(ctx.rng.cursor), plan))
    ensures ctx.rng.cursor == old(ctx.rng.cursor) + FloatsDrawn(delivery)
  {
    ctx.view.SceneIsFaithful();
    if Lawful(ctx.m) {
      PlanIsLawful(ctx.m, ctx.view.SceneOf(), delivery, ctx.shot, ctx.rng.draws, ctx.rng.cursor);
    }
    outcomes, knockbacks := LandDelivery(delivery, ctx);
  }

  method ResolvePierce(ctx: DeliveryContext, out: MutableResolution, d: DamageDelivery, ghost start: Start)
    requires Landed(ctx, out, start, []) && d.PierceDelivery?
    modifies ctx.view.world, out
    ensures Landed(ctx, out, start, Plan(ctx.m, old(ctx.view.SceneOf()), d, ctx.shot, ctx.rng.draws, ctx.rng.cursor))
  {
    var struck := RayCandidates(ctx, ctx.shot.origin, ctx.shot.aim, d.range, d.hitRadius);
    HitThrough(ctx, out, struck, HitFrom(d.damage, d.falloff, d.knockback, ctx.shot.origin), d.maxTargets, start);
  }

  method ResolveExplosive(ctx: DeliveryContext, out: MutableResolution, d: DamageDelivery, ghost start: Start)
    requires Landed(ctx, out, start, []) && d.ExplosiveDelivery?
    modifies ctx.view.world, out
    ensures Landed(ctx, out, start, Plan(ctx.m, old(ctx.view.SceneOf()), d, ctx.shot, ctx.rng.draws, ctx.rng.cursor))
  {
    var probe := Blast(ctx.shot.origin, d.radius);
    var struck := FindStruck(ctx.view, Bounds(ctx.m, probe), Test(ctx.m, probe));
    HitArea(ctx, out, struck, HitFrom(d.damage, d.falloff, d.knockback, ctx.shot.origin), d.requiresLineOfSight, start);
  }

  method ResolveMelee(ctx: DeliveryContext, out: MutableResolution, d: DamageDelivery, ghost start: Start)
    requires Landed(ctx, out, start, []) && d.MeleeDelivery?
    modifies ctx.view.world, out
    ensures Landed(ctx, out, start, Plan(ctx.m, old(ctx.view.SceneOf()), d, ctx.shot, ctx.rng.draws, ctx.rng.cursor))
  {
    var aim := NormalizeVec(ctx.m, ctx.shot.aim);
    var probe := Swing(ctx.shot.origin, aim, d.range, d.arc / 2.0);
    var struck := FindStruck(ctx.view, Bounds(ctx.m, probe), Test(ctx.m, probe));
    HitArea(ctx, out, struck, SwingFrom(d.damage, d.knockback, ctx.shot.origin, aim), false, start);
  }

  method ResolveFlight(ctx: DeliveryContext, out: MutableResolution, d: DamageDelivery, ghost start: Start)
    requires Landed(ctx, out, start, []) && d.ProjectileDelivery?
    modifies ctx.view.world, out
    ensures Landed(ctx, out, start, Plan(ctx.m, old(ctx.view.SceneOf()), d, ctx.shot, ctx.rng.draws, ctx.rng.cursor))
  {
    ghost var scene := ctx.view.SceneOf();
    ghost var sweep := SweepIn(ctx.m, scene, d.radius);
    assert SweepFollows(ctx.m, scene, d.radius, sweep);
    ResolveProjectile(ctx, out, FlightOf(ctx.m, d, ctx.shot.aim),
                      HitFrom(d.damage, d.falloff, d.knockback, ctx.shot.origin), scene, sweep, start);
  }

  method ResolvePellets(ctx: DeliveryContext, out: MutableResolution, d: DamageDelivery, ghost start: Start)
    requires Landed(ctx, out, start, []) && d.PelletDelivery?
    modifies ctx.view.world, ctx.rng, out
    ensures Landed(ctx, out, start, Plan(ctx.m, old(ctx.view.SceneOf()), d, ctx.shot, ctx.rng.draws,
                                         old(ctx.rng.cursor)))
    ensures ctx.rng.cursor == old(ctx.rng.cursor) + FloatsDrawn(d)
  {
    ghost var scene := ctx.view.SceneOf();
    ghost var pelletHits := PelletHits(ctx.m, scene, d, ctx.shot, ctx.rng.draws);
    assert PelletsFollow(ctx.m, scene, d, ctx.shot, ctx.rng.draws, pelletHits);
    ResolvePellet(ctx, out, d, scene, pelletHits, start);
  }

  method Dispatch(delivery: DamageDelivery, ctx: DeliveryContext, out: MutableResolution, ghost scene: Scene,
                  ghost start: Start)
    requires Landed(ctx, out, start, []) && ctx.view.SceneOf() == scene
    modifies ctx.view.world, ctx.rng, out
    ensures Landed(ctx, out, start, Plan(ctx.m, scene, delivery, ctx.shot, ctx.rng.draws, old(ctx.rng.cursor)))
    ensures ctx.rng.cursor == old(ctx.rng.cursor) + FloatsDrawn(delivery)
  {
    match delivery
    case HitscanDelivery(damage, range, hitRadius, falloff, knockback) =>
      ResolveSingleRay(ctx, out, damage, range, hitRadius, falloff, knockback, start);
    case BeamDelivery(damage, range, hitRadius, falloff, knockback) =>
      ResolveSingleRay(ctx, out, damage, range, hitRadius, falloff, knockback, start);
    case ProjectileDelivery(_, _, _, _, _, _) => ResolveFlight(ctx, out, delivery, start);
    case PelletDelivery(_, _, _, _, _, _, _) => ResolvePellets(ctx, out, delivery, start);
    case ChargeDelivery(_, _, _, range, hitRadius, falloff, knockback) =>
      ResolveSingleRay(ctx, out, ChargeDamage(delivery, ctx.shot.heldTicks), range, hitRadius, falloff, knockback,
                       start);
    case BounceDelivery(_, _, _, _, _, _) => ResolveBounce(ctx, out, delivery, start);
    case PierceDelivery(_, _, _, _, _, _) => ResolvePierce(ctx, out, delivery, start);
    case ExplosiveDelivery(_, _, _, _, _) => ResolveExplosive(ctx, out, delivery, start);
    case MeleeDelivery(_, _, _, _) => ResolveMelee(ctx, out, delivery, start);
  }
}
