/**
 Who each delivery family hits, stated over the whole scene
 (packages/simulation/src/delivery.ts): independent of the index, the enumeration and the sort.
 */
module DeliveryLaws {
  import opened Wrappers
  import opened Sorting
  import opened Geometry
  import opened Damage
  import opened World
  import opened Targeting
  import opened Delivery
  import opened Rng

  /** The entity is in the scene and the probe reaches it: `s` says where and how far. */
  ghost predicate Reaches(m: Maths, scene: Scene, probe: Probe, s: Struck)
  {
    && s.entity in scene.entities && s.entity in scene.positions
    && s.position == scene.positions[s.entity] && Reach(m, probe, s.position) == Some(s.along)
  }

  ghost predicate Clear(scene: Scene, origin: Vec2, s: Struck)
  {
    !Blocked(scene.blockers, origin, s.position, 0.0)
  }

  lemma StruckAreReached(m: Maths, scene: Scene, probe: Probe)
    requires Lawful(m) && Faithful(scene)
    ensures forall s :: s in StruckBy(m, scene, probe) <==> Reaches(m, scene, probe, s)
  {
    IndexReachesTheSame(m, scene, probe);
    AcceptMembers(Test(m, probe), scene.positions, scene.entities);
  }

  lemma AlongOrder()
    ensures TotalPreorder(NotAfter)
  {
  }

  lemma RayStruckIsSorted(m: Maths, scene: Scene, origin: Vec2, direction: Vec2, range: real, hitRadius: real)
    requires Lawful(m) && Faithful(scene)
    ensures var struck := RayStruck(m, scene, origin, direction, range, hitRadius);
            && Sorted(struck, NotAfter)
            && forall s :: s in struck <==> Reaches(m, scene, Ray(origin, direction, range, hitRadius), s)
  {
    var struck := StruckBy(m, scene, Ray(origin, direction, range, hitRadius));
    AlongOrder();
    SortSorted(struck, NotAfter);
    SortMultiset(struck, NotAfter);
    StruckAreReached(m, scene, Ray(origin, direction, range, hitRadius));
  }

  // ----- single-target rays -----

  /** Element `i` is clear and everything before it is shielded. */
  ghost predicate FirstClear(clear: Struck -> bool, struck: seq<Struck>, i: int)
  {
    0 <= i < |struck| && clear(struck[i]) && forall j :: 0 <= j < i ==> !clear(struck[j])
  }

  ghost function ClearFrom(blockers: seq<Blocker>, origin: Vec2): Struck -> bool
  {
    (s: Struck) => !Blocked(blockers, origin, s.position, 0.0)
  }

  lemma {:induction false} PlanRayIsFirstClear(blockers: seq<Blocker>, origin: Vec2, hitOf: Struck -> PlannedHit,
      struck: seq<Struck>)
    ensures var plan, clear := PlanRay(blockers, origin, hitOf, struck), ClearFrom(blockers, origin);
            || (plan == [] && forall s :: s in struck ==> !clear(s))
            || exists i :: FirstClear(clear, struck, i) && plan == [hitOf(struck[i])]
  {
    var clear := ClearFrom(blockers, origin);
    if struck != [] && !clear(struck[0]) {
      PlanRayIsFirstClear(blockers, origin, hitOf, struck[1..]);
      var plan := PlanRay(blockers, origin, hitOf, struck[1..]);
      if i :| FirstClear(clear, struck[1..], i) && plan == [hitOf(struck[1..][i])] {
        FirstClearLater(clear, struck, i);
      }
    } else if struck != [] {
      assert FirstClear(clear, struck, 0);
      assert PlanRay(blockers, origin, hitOf, struck) == [hitOf(struck[0])];
    }
  }

  lemma FirstClearLater(clear: Struck -> bool, struck: seq<Struck>, i: int)
    requires struck != [] && !clear(struck[0]) && FirstClear(clear, struck[1..], i)
    ensures FirstClear(clear, struck, i + 1) && struck[i + 1] == struck[1..][i]
  {
    forall j | 0 <= j < i + 1 ensures !clear(struck[j]) {
      assert j > 0 ==> struck[j] == struck[1..][j - 1];
    }
  }

  /** In a sorted list the first clear element is the least of the clear ones. */
  lemma FirstClearIsLeast(clear: Struck -> bool, struck: seq<Struck>, i: int)
    requires Sorted(struck, NotAfter) && FirstClear(clear, struck, i)
    ensures forall t :: t in struck && clear(t) ==> NotAfter(struck[i], t)
  {
    forall t | t in struck && clear(t) ensures NotAfter(struck[i], t) {
      var j :| 0 <= j < |struck| && struck[j] == t;
      assert j >= i;
    }
  }

  /** `s` is the nearest clear target of the probe, ties going to the lower id. */
  ghost predicate NearestClear(m: Maths, scene: Scene, origin: Vec2, probe: Probe, s: Struck)
  {
    && Reaches(m, scene, probe, s) && Clear(scene, origin, s)
    && forall t :: Reaches(m, scene, probe, t) && Clear(scene, origin, t) ==> NotAfter(s, t)
  }

  /**
   A hitscan, beam, charge or pellet ray hits exactly the nearest entity it reaches that no
   geometry shields, and nobody when every entity in reach is shielded.
   */
  lemma RayHitsNearestClear(m: Maths, scene: Scene, shot: Shot, damage: real, range: real, hitRadius: real,
                            falloff: Falloff, knockback: real)
    requires Lawful(m) && Faithful(scene)
    ensures var probe := Ray(shot.origin, shot.aim, range, hitRadius);
            var plan := PlanSingleRay(m, scene, shot, damage, range, hitRadius, falloff, knockback);
            && (plan == [] <==> forall s :: Reaches(m, scene, probe, s) ==> !Clear(scene, shot.origin, s))
            && (plan != [] ==> exists s :: NearestClear(m, scene, shot.origin, probe, s)
                                           && plan == [HitFrom(damage, falloff, knockback, shot.origin)(s)])
  {
    RayStruckIsSorted(m, scene, shot.origin, shot.aim, range, hitRadius);
    SortedRayHits(m, scene, shot.origin, Ray(shot.origin, shot.aim, range, hitRadius),
                  HitFrom(damage, falloff, knockback, shot.origin),
                  RayStruck(m, scene, shot.origin, shot.aim, range, hitRadius));
  }

  lemma SortedRayHits(m: Maths, scene: Scene, origin: Vec2, probe: Probe, hitOf: Struck -> PlannedHit,
                      struck: seq<Struck>)
    requires Sorted(struck, NotAfter) && forall s :: s in struck <==> Reaches(m, scene, probe, s)
    ensures var plan := PlanRay(scene.blockers, origin, hitOf, struck);
            && (plan == [] <==> forall s :: Reaches(m, scene, probe, s) ==> !Clear(scene, origin, s))
            && (plan != [] ==> exists s :: NearestClear(m, scene, origin, probe, s) && plan == [hitOf(s)])
  {
    var clear, plan := ClearFrom(scene.blockers, origin), PlanRay(scene.blockers, origin, hitOf, struck);
    PlanRayIsFirstClear(scene.blockers, origin, hitOf, struck);
    if plan != [] {
      var i :| FirstClear(clear, struck, i) && plan == [hitOf(struck[i])];
      FirstClearIsLeast(clear, struck, i);
      assert struck[i] in struck;
      assert NearestClear(m, scene, origin, probe, struck[i]);
    }
  }

  // ----- pierce -----

  function AtLeastOne(n: int): nat
  {
    if n < 1 then 1 else n
  }

  /** How many targets of a sorted list a pierce goes through. */
  ghost predicate PiercesTo(blockers: seq<Blocker>, origin: Vec2, struck: seq<Struck>, budget: nat, n: nat)
  {
    && n <= |struck| && n <= budget
    && (forall i :: 0 <= i < n ==> !Blocked(blockers, origin, struck[i].position, 0.0))
    && (n == |struck| || n == budget || Blocked(blockers, origin, struck[n].position, 0.0))
  }

  function Hits(hitOf: Struck -> PlannedHit, struck: seq<Struck>): seq<PlannedHit>
  {
    seq(|struck|, i requires 0 <= i < |struck| => hitOf(struck[i]))
  }

  lemma {:induction false} PlanPierceIsPrefix(blockers: seq<Blocker>, origin: Vec2, hitOf: Struck -> PlannedHit,
      maxTargets: int, struck: seq<Struck>, hits: nat)
    ensures var plan := PlanPierce(blockers, origin, hitOf, maxTargets, struck, hits);
            && PiercesTo(blockers, origin, struck, AtLeastOne(maxTargets - hits), |plan|)
            && plan == Hits(hitOf, struck[..|plan|])
    decreases struck
  {
    if struck != [] && !Blocked(blockers, origin, struck[0].position, 0.0) {
      var plan := PlanPierce(blockers, origin, hitOf, maxTargets, struck, hits);
      if hits + 1 < maxTargets {
        PlanPierceIsPrefix(blockers, origin, hitOf, maxTargets, struck[1..], hits + 1);
        var rest := PlanPierce(blockers, origin, hitOf, maxTargets, struck[1..], hits + 1);
        assert plan == [hitOf(struck[0])] + rest;
        forall i | 0 <= i < |plan| ensures !Blocked(blockers, origin, struck[i].position, 0.0) {
          assert i > 0 ==> struck[i] == struck[1..][i - 1];
        }
        assert |plan| < |struck| ==> struck[|plan|] == struck[1..][|rest|];
        assert struck[..|plan|] == [struck[0]] + struck[1..][..|rest|];
      } else {
        assert plan == [hitOf(struck[0])];
      }
    }
  }

  /**
   A pierce goes through the entities it reaches nearest first, and stops only at the first
   shielded one, at its target budget (at least one), or when nobody is left.
   */
  lemma PierceGoesThrough(m: Maths, scene: Scene, delivery: DamageDelivery, shot: Shot, draws: Draws, cursor: nat)
    requires Lawful(m) && Faithful(scene) && delivery.PierceDelivery?
    ensures var struck := RayStruck(m, scene, shot.origin, shot.aim, delivery.range, delivery.hitRadius);
            var plan := Plan(m, scene, delivery, shot, draws, cursor);
            && Sorted(struck, NotAfter)
            && (forall s :: s in struck <==>
                  Reaches(m, scene, Ray(shot.origin, shot.aim, delivery.range, delivery.hitRadius), s))
            && PiercesTo(scene.blockers, shot.origin, struck, AtLeastOne(delivery.maxTargets), |plan|)
            && plan == Hits(HitFrom(delivery.damage, delivery.falloff, delivery.knockback, shot.origin),
                            struck[..|plan|])
  {
    var struck := RayStruck(m, scene, shot.origin, shot.aim, delivery.range, delivery.hitRadius);
    RayStruckIsSorted(m, scene, shot.origin, shot.aim, delivery.range, delivery.hitRadius);
    PlanPierceIsPrefix(scene.blockers, shot.origin,
                       HitFrom(delivery.damage, delivery.falloff, delivery.knockback, shot.origin),
                       delivery.maxTargets, struck, 0);
  }

  // ----- areas -----

  ghost predicate AscendingTargets(plan: seq<PlannedHit>)
  {
    forall i, j :: 0 <= i < j < |plan| ==> plan[i].target < plan[j].target
  }

  ghost predicate AscendingStruck(struck: seq<Struck>)
  {
    forall i, j :: 0 <= i < j < |struck| ==> struck[i].entity < struck[j].entity
  }

  lemma {:induction false} AcceptAscends(test: Vec2 -> Option<real>, positions: map<EntityId, Vec2>,
      candidates: seq<EntityId>)
    requires Ascending(candidates)
    ensures AscendingStruck(Accept(test, positions, candidates))
  {
    if candidates != [] {
      var rest := Accept(test, positions, candidates[1..]);
      AcceptAscends(test, positions, candidates[1..]);
      AcceptMembers(test, positions, candidates[1..]);
      forall i | 0 <= i < |rest| ensures candidates[0] < rest[i].entity {
        assert rest[i] in rest;
        var j :| 0 < j < |candidates| && candidates[j] == rest[i].entity;
      }
    }
  }

  /** `hit` lands on somebody struck who is not shielded when sight is required. */
  ghost predicate AreaHit(blockers: seq<Blocker>, origin: Vec2, hitOf: Struck -> PlannedHit, sight: bool,
                          struck: seq<Struck>, hit: PlannedHit)
  {
    exists s :: s in struck && hit == hitOf(s) && !(sight && Blocked(blockers, origin, s.position, 0.0))
  }

  lemma {:induction false} PlanAreaHits(blockers: seq<Blocker>, origin: Vec2, hitOf: Struck -> PlannedHit, sight: bool,
                                        struck: seq<Struck>, hit: PlannedHit)
    ensures hit in PlanArea(blockers, origin, hitOf, sight, struck) <==>
        AreaHit(blockers, origin, hitOf, sight, struck, hit)
  {
    if struck != [] {
      PlanAreaHits(blockers, origin, hitOf, sight, struck[1..], hit);
      assert forall s :: s in struck <==> s == struck[0] || s in struck[1..];
    }
  }

  lemma {:induction false} PlanAreaAscends(blockers: seq<Blocker>, origin: Vec2, hitOf: Struck -> PlannedHit,
      sight: bool, struck: seq<Struck>)
    requires Aimed(hitOf) && AscendingStruck(struck)
    ensures AscendingTargets(PlanArea(blockers, origin, hitOf, sight, struck))
  {
    if struck != [] {
      var rest := PlanArea(blockers, origin, hitOf, sight, struck[1..]);
      PlanAreaAscends(blockers, origin, hitOf, sight, struck[1..]);
      forall i | 0 <= i < |rest| ensures struck[0].entity < rest[i].target {
        PlanAreaHits(blockers, origin, hitOf, sight, struck[1..], rest[i]);
        var s :| s in struck[1..] && rest[i] == hitOf(s);
        var j :| 0 < j < |struck| && struck[j] == s;
        assert hitOf(s).target == s.entity;
      }
      assert hitOf(struck[0]).target == struck[0].entity;
    }
  }

  lemma PlanAreaIsExact(blockers: seq<Blocker>, origin: Vec2, hitOf: Struck -> PlannedHit, sight: bool,
                        struck: seq<Struck>)
    requires Aimed(hitOf) && AscendingStruck(struck)
    ensures var plan := PlanArea(blockers, origin, hitOf, sight, struck);
            && AscendingTargets(plan)
            && forall hit :: hit in plan <==> AreaHit(blockers, origin, hitOf, sight, struck, hit)
  {
    PlanAreaAscends(blockers, origin, hitOf, sight, struck);
    forall hit ensures hit in PlanArea(blockers, origin, hitOf, sight, struck) <==>
        AreaHit(blockers, origin, hitOf, sight, struck, hit) {
      PlanAreaHits(blockers, origin, hitOf, sight, struck, hit);
    }
  }

  /**
   An explosion hits exactly the entities within its radius, except those shielded when sight
   is required: each once, in id order.
   */
  lemma BlastHitsExactly(m: Maths, scene: Scene, delivery: DamageDelivery, shot: Shot, draws: Draws, cursor: nat)
    requires Lawful(m) && Faithful(scene) && delivery.ExplosiveDelivery?
    ensures var plan := Plan(m, scene, delivery, shot, draws, cursor);
            var hitOf := HitFrom(delivery.damage, delivery.falloff, delivery.knockback, shot.origin);
            && AscendingTargets(plan)
            && forall hit :: hit in plan <==>
                 exists s :: Reaches(m, scene, Blast(shot.origin, delivery.radius), s) && hit == hitOf(s)
                             && !(delivery.requiresLineOfSight && !Clear(scene, shot.origin, s))
  {
    var probe := Blast(shot.origin, delivery.radius);
    AreaStruck(m, scene, probe);
    PlanAreaIsExact(scene.blockers, shot.origin,
                    HitFrom(delivery.damage, delivery.falloff, delivery.knockback, shot.origin),
                    delivery.requiresLineOfSight, StruckBy(m, scene, probe));
  }

  /** A melee swing hits exactly the entities within its length and arc: each once, in id order. */
  lemma SwingHitsExactly(m: Maths, scene: Scene, delivery: DamageDelivery, shot: Shot, draws: Draws, cursor: nat)
    requires Lawful(m) && Faithful(scene) && delivery.MeleeDelivery?
    ensures var plan := Plan(m, scene, delivery, shot, draws, cursor);
            var aim := NormalizeVec(m, shot.aim);
            var hitOf := SwingFrom(delivery.damage, delivery.knockback, shot.origin, aim);
            && AscendingTargets(plan)
            && forall hit :: hit in plan <==>
                 exists s :: Reaches(m, scene, Swing(shot.origin, aim, delivery.range, delivery.arc / 2.0), s)
                             && hit == hitOf(s)
  {
    var aim := NormalizeVec(m, shot.aim);
    var probe := Swing(shot.origin, aim, delivery.range, delivery.arc / 2.0);
    AreaStruck(m, scene, probe);
    PlanAreaIsExact(scene.blockers, shot.origin, SwingFrom(delivery.damage, delivery.knockback, shot.origin, aim),
                    false, StruckBy(m, scene, probe));
  }

  lemma AreaStruck(m: Maths, scene: Scene, probe: Probe)
    requires Lawful(m) && Faithful(scene)
    ensures AscendingStruck(StruckBy(m, scene, probe))
    ensures forall s :: s in StruckBy(m, scene, probe) <==> Reaches(m, scene, probe, s)
  {
    StruckAreReached(m, scene, probe);
    IndexReachesTheSame(m, scene, probe);
    AcceptAscends(Test(m, probe), scene.positions, scene.entities);
  }
}
