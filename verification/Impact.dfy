/**
 Applying planned hits to vitality (`applyHit` of packages/simulation/src/delivery.ts),
 and the health ledger over any list of hits.
 */
module Impact {
  import opened Wrappers
  import opened Geometry
  import opened Damage
  import opened Delivery

  /** Impulse the caller should give a struck target. */
  datatype Knockback = Knockback(target: EntityId, x: real, y: real)

  datatype Resolution = Resolution(vitals: Vitals, outcomes: seq<DamageOutcome>, knockbacks: seq<Knockback>)

  /** The impulse along the hit direction. */
  function Impulse(m: Maths): PlannedHit -> Knockback
  {
    (hit: PlannedHit) =>
      var dir := NormalizeVec(m, hit.direction);
      Knockback(hit.target, dir.x * hit.knockback, dir.y * hit.knockback)
  }

  /** An impulse has the strength of its hit and points the way the hit went. */
  lemma ImpulseIsTheHit(m: Maths, hit: PlannedHit)
    requires Lawful(m) && hit.knockback >= 0.0
    ensures var k := Impulse(m)(hit);
            && k.target == hit.target && VecLength(m, Vec2(k.x, k.y)) == hit.knockback
            && ScaleVec(Vec2(k.x, k.y), VecLength(m, hit.direction)) == ScaleVec(hit.direction, hit.knockback)
  {
    var k, h := Impulse(m)(hit), VecLength(m, hit.direction);
    NormalizedLength(m, hit.direction, hit.knockback);
    assert Vec2(k.x, k.y) == ScaleVec(NormalizeVec(m, hit.direction), hit.knockback);
    assert HypotAt(m, hit.direction.x, hit.direction.y);
    if h == 0.0 {
      SquaresVanish(hit.direction.x, hit.direction.y, hit.direction.x * hit.direction.x,
                    hit.direction.y * hit.direction.y);
    } else {
      Rescaled(hit.direction.x, h, hit.knockback);
      Rescaled(hit.direction.y, h, hit.knockback);
    }
  }

  lemma Rescaled(n: real, h: real, k: real)
    requires h != 0.0
    ensures n / h * k * h == n * k
  {
    var q := n / h;
    assert q * h == n;
    assert q * k * h == q * h * k;
  }

  function StrengthSquared(k: Knockback): real
  {
    LengthSquared(Vec2(k.x, k.y))
  }

  /** Impulses on the same target and of the same strength, whichever way they point. */
  predicate AlikeImpulses(k: Knockback, l: Knockback)
  {
    k.target == l.target && StrengthSquared(k) == StrengthSquared(l)
  }

  ghost predicate PushesAlike(push: PlannedHit -> Knockback, a: PlannedHit, b: PlannedHit)
  {
    a.target == b.target && a.knockback == b.knockback > 0.0 ==> AlikeImpulses(push(a), push(b))
  }

  /** The target and the knockback of a hit decide the target and the strength of its impulse. */
  ghost predicate PushesByStrength(push: PlannedHit -> Knockback)
  {
    forall a, b :: PushesAlike(push, a, b)
  }

  lemma ImpulsePushesByStrength(m: Maths)
    requires Lawful(m)
    ensures PushesByStrength(Impulse(m))
  {
    var push := Impulse(m);
    forall a, b ensures PushesAlike(push, a, b) {
      if a.target == b.target && a.knockback == b.knockback > 0.0 {
        StrengthIsKnockback(m, a);
        StrengthIsKnockback(m, b);
      }
    }
  }

  lemma StrengthIsKnockback(m: Maths, hit: PlannedHit)
    requires Lawful(m) && hit.knockback >= 0.0
    ensures Impulse(m)(hit).target == hit.target && StrengthSquared(Impulse(m)(hit)) == hit.knockback * hit.knockback
  {
    var k := Impulse(m)(hit);
    ImpulseIsTheHit(m, hit);
    assert HypotAt(m, k.x, k.y);
  }

  /** Only a hit that dealt damage pushes. */
  function KnockbackOf(push: PlannedHit -> Knockback, hit: PlannedHit, outcome: DamageOutcome): seq<Knockback>
  {
    if hit.knockback > 0.0 && DamageDealt(outcome) then [push(hit)] else []
  }

  /** Land the hits one after the other. */
  function ApplyHits(push: PlannedHit -> Knockback, vitals: Vitals, teams: map<EntityId, TeamId>, source: DamageSource,
                     policy: Policy, hits: seq<PlannedHit>): Resolution
    decreases hits
  {
    if hits == [] then Resolution(vitals, [], [])
    else
      var head := LandHit(push, vitals, teams, source, policy, hits[0]);
      Join(head, ApplyHits(push, head.vitals, teams, source, policy, hits[1..]))
  }

  function Join(first: Resolution, second: Resolution): Resolution
  {
    Resolution(second.vitals, first.outcomes + second.outcomes, first.knockbacks + second.knockbacks)
  }

  lemma JoinAssociates(a: Resolution, b: Resolution, c: Resolution)
    ensures Join(Join(a, b), c) == Join(a, Join(b, c))
  {
  }

  function LandHit(push: PlannedHit -> Knockback, vitals: Vitals, teams: map<EntityId, TeamId>, source: DamageSource,
                   policy: Policy, hit: PlannedHit): Resolution
  {
    var (after, outcome) := HitEntity(vitals, teams, hit.target, hit.amount, source, policy);
    Resolution(after, [outcome], KnockbackOf(push, hit, outcome))
  }

  lemma {:induction false} ApplyHitsAppend(push: PlannedHit -> Knockback, vitals: Vitals, teams: map<EntityId, TeamId>,
      source: DamageSource, policy: Policy, hits: seq<PlannedHit>, more: seq<PlannedHit>)
    ensures var first := ApplyHits(push, vitals, teams, source, policy, hits);
            ApplyHits(push, vitals, teams, source, policy, hits + more) ==
            Join(first, ApplyHits(push, first.vitals, teams, source, policy, more))
    decreases hits
  {
    if hits == [] {
      assert hits + more == more;
    } else {
      var head := LandHit(push, vitals, teams, source, policy, hits[0]);
      assert (hits + more)[1..] == hits[1..] + more;
      assert ApplyHits(push, vitals, teams, source, policy, hits + more) ==
             Join(head, ApplyHits(push, head.vitals, teams, source, policy, hits[1..] + more));
      ApplyHitsAppend(push, head.vitals, teams, source, policy, hits[1..], more);
      var tail := ApplyHits(push, head.vitals, teams, source, policy, hits[1..]);
      JoinAssociates(head, tail, ApplyHits(push, tail.vitals, teams, source, policy, more));
    }
  }

  lemma ApplyOneHit(push: PlannedHit -> Knockback, vitals: Vitals, teams: map<EntityId, TeamId>, source: DamageSource,
                    policy: Policy, hit: PlannedHit)
    ensures ApplyHits(push, vitals, teams, source, policy, [hit]) == LandHit(push, vitals, teams, source, policy, hit)
  {
    var r := LandHit(push, vitals, teams, source, policy, hit);
    assert [hit][1..] == [];
    assert Join(r, Resolution(r.vitals, [], [])) == r;
  }

  /** Every impulse comes from a landed hit that pushes, with that hit's strength. */
  lemma {:induction false} ImpulsesComeFromHits(m: Maths, vitals: Vitals, teams: map<EntityId, TeamId>,
      source: DamageSource, policy: Policy, hits: seq<PlannedHit>)
    requires Lawful(m)
    ensures forall k :: k in ApplyHits(Impulse(m), vitals, teams, source, policy, hits).knockbacks ==>
              exists hit :: hit in hits && hit.knockback > 0.0 && k == Impulse(m)(hit)
                            && VecLength(m, Vec2(k.x, k.y)) == hit.knockback
    decreases hits
  {
    if hits != [] {
      var head := LandHit(Impulse(m), vitals, teams, source, policy, hits[0]);
      var rest := ApplyHits(Impulse(m), head.vitals, teams, source, policy, hits[1..]);
      ImpulsesComeFromHits(m, head.vitals, teams, source, policy, hits[1..]);
      forall k | k in head.knockbacks + rest.knockbacks
        ensures exists hit :: hit in hits && hit.knockback > 0.0 && k == Impulse(m)(hit)
                              && VecLength(m, Vec2(k.x, k.y)) == hit.knockback
      {
        if k in head.knockbacks {
          ImpulseIsTheHit(m, hits[0]);
          assert hits[0] in hits;
        }
      }
    }
  }

  // ----- the ledger -----

  /** All health a list of outcomes reports to have taken from `entity`. */
  function TotalDealt(outcomes: seq<DamageOutcome>, entity: EntityId): real
  {
    if outcomes == [] then 0.0 else DealtTo(outcomes[0], entity) + TotalDealt(outcomes[1..], entity)
  }

  function Defeats(outcomes: seq<DamageOutcome>, entity: EntityId): nat
  {
    if outcomes == [] then 0
    else (if outcomes[0].EntityDefeated? && outcomes[0].target == entity then 1 else 0) + Defeats(outcomes[1..], entity)
  }

  lemma {:induction false} TotalDealtAppend(a: seq<DamageOutcome>, b: seq<DamageOutcome>, entity: EntityId)
    ensures TotalDealt(a + b, entity) == TotalDealt(a, entity) + TotalDealt(b, entity)
    ensures Defeats(a + b, entity) == Defeats(a, entity) + Defeats(b, entity)
  {
    if a == [] {
      assert a + b == b;
    } else {
      TotalDealtAppend(a[1..], b, entity);
      assert (a + b)[1..] == a[1..] + b;
    }
  }

  /**
   The books of a stretch of combat: every entity lost exactly what was reported, pools that
   started in bounds stayed there, and a defeat was reported once exactly for those who went
   from standing to defeated.
   */
  ghost predicate Balanced(before: Vitals, after: Vitals, outcomes: seq<DamageOutcome>)
  {
    && after.Keys == before.Keys
    && forall e :: e in before ==>
         && after[e].current == before[e].current - TotalDealt(outcomes, e)
         && after[e].max == before[e].max
         && (before[e].InPool() ==> after[e].InPool())
         && (before[e].IsDefeated() ==> after[e] == before[e])
         && Defeats(outcomes, e) == if !before[e].IsDefeated() && after[e].IsDefeated() then 1 else 0
  }

  lemma BalancedOne(before: Vitals, after: Vitals, outcome: DamageOutcome)
    requires Accounted(before, after, outcome)
    ensures Balanced(before, after, [outcome])
  {
    assert [outcome][1..] == [];
    forall e ensures TotalDealt([outcome], e) == DealtTo(outcome, e) {
    }
    forall e ensures Defeats([outcome], e) == if outcome.EntityDefeated? && outcome.target == e then 1 else 0 {
    }
  }

  lemma BalancedNone(vitals: Vitals)
    ensures Balanced(vitals, vitals, [])
  {
  }

  lemma BalancedJoin(a: Vitals, b: Vitals, c: Vitals, first: seq<DamageOutcome>, second: seq<DamageOutcome>)
    requires Balanced(a, b, first) && Balanced(b, c, second)
    ensures Balanced(a, c, first + second)
  {
    forall e | e in a
      ensures TotalDealt(first + second, e) == TotalDealt(first, e) + TotalDealt(second, e)
      ensures Defeats(first + second, e) == Defeats(first, e) + Defeats(second, e)
    {
      TotalDealtAppend(first, second, e);
    }
  }

  lemma {:induction false} HitsBalance(push: PlannedHit -> Knockback, vitals: Vitals, teams: map<EntityId, TeamId>,
                                       source: DamageSource, policy: Policy, hits: seq<PlannedHit>)
    ensures var r := ApplyHits(push, vitals, teams, source, policy, hits);
            Balanced(vitals, r.vitals, r.outcomes)
    decreases hits
  {
    if hits == [] {
      BalancedNone(vitals);
    } else {
      HitIsAccounted(vitals, teams, hits[0].target, hits[0].amount, source, policy);
      var (after, outcome) := HitEntity(vitals, teams, hits[0].target, hits[0].amount, source, policy);
      var rest := ApplyHits(push, after, teams, source, policy, hits[1..]);
      BalancedOne(vitals, after, outcome);
      HitsBalance(push, after, teams, source, policy, hits[1..]);
      BalancedJoin(vitals, after, rest.vitals, [outcome], rest.outcomes);
    }
  }

  /** All damage that a list of hits asks of `entity`. */
  function Asked(hits: seq<PlannedHit>, entity: EntityId): real
  {
    if hits == [] then 0.0
    else (if hits[0].target == entity then Max(hits[0].amount, 0.0) else 0.0) + Asked(hits[1..], entity)
  }

  /** The policy lets the source hurt the entity. */
  predicate Allowed(teams: map<EntityId, TeamId>, source: DamageSource, policy: Policy, entity: EntityId)
  {
    policy(HitContext(source.entity, source.team, entity, TeamOf(teams, entity)))
  }

  lemma {:induction false} AskedIsNotNegative(hits: seq<PlannedHit>, entity: EntityId)
    ensures Asked(hits, entity) >= 0.0
  {
    if hits != [] {
      AskedIsNotNegative(hits[1..], entity);
    }
  }

  /**
   However a volley is split into hits, an entity the source may hurt loses the lesser of all that
   is asked of it and what it had; one the source may not hurt loses nothing.
   */
  lemma {:induction false} HitsAddUp(push: PlannedHit -> Knockback, vitals: Vitals, teams: map<EntityId, TeamId>,
      source: DamageSource, policy: Policy, hits: seq<PlannedHit>, entity: EntityId)
    requires entity in vitals && vitals[entity].InPool()
    ensures var after, h := ApplyHits(push, vitals, teams, source, policy, hits).vitals, vitals[entity];
            var lost := if Allowed(teams, source, policy, entity) then Min(Asked(hits, entity), h.current) else 0.0;
            entity in after && after[entity] == Health(h.current - lost, h.max)
    decreases hits
  {
    if hits != [] {
      var after := HitEntity(vitals, teams, hits[0].target, hits[0].amount, source, policy).0;
      HitTakes(vitals, teams, hits[0].target, hits[0].amount, source, policy);
      HitsAddUp(push, after, teams, source, policy, hits[1..], entity);
      AskedIsNotNegative(hits[1..], entity);
    }
  }

  /** Every hit is answered by one outcome, in order. */
  lemma {:induction false} EveryHitIsAnswered(push: PlannedHit -> Knockback, vitals: Vitals,
      teams: map<EntityId, TeamId>, source: DamageSource, policy: Policy, hits: seq<PlannedHit>)
    ensures var r := ApplyHits(push, vitals, teams, source, policy, hits);
            |r.outcomes| == |hits| && forall i :: 0 <= i < |hits| ==> r.outcomes[i].target == hits[i].target
    decreases hits
  {
    if hits != [] {
      var head := LandHit(push, vitals, teams, source, policy, hits[0]);
      var rest := ApplyHits(push, head.vitals, teams, source, policy, hits[1..]);
      HitIsAccounted(vitals, teams, hits[0].target, hits[0].amount, source, policy);
      EveryHitIsAnswered(push, head.vitals, teams, source, policy, hits[1..]);
      forall i | 0 < i < |hits| ensures (head.outcomes + rest.outcomes)[i].target == hits[i].target {
        assert (head.outcomes + rest.outcomes)[i] == rest.outcomes[i - 1] && hits[i] == hits[1..][i - 1];
      }
    }
  }

  /** The pushes of the hits that knock back and whose outcomes took health. */
  function PushesOf(push: PlannedHit -> Knockback, hits: seq<PlannedHit>, outcomes: seq<DamageOutcome>): seq<Knockback>
    requires |hits| == |outcomes|
  {
    if hits == [] then []
    else
      (if hits[0].knockback > 0.0 && !outcomes[0].DamageIgnored? then [push(hits[0])] else [])
      + PushesOf(push, hits[1..], outcomes[1..])
  }

  /** One impulse for each hit that knocks back and took health, in the order of the hits, and no other. */
  lemma {:induction false} ImpulsesAreExact(push: PlannedHit -> Knockback, vitals: Vitals,
      teams: map<EntityId, TeamId>, source: DamageSource, policy: Policy, hits: seq<PlannedHit>)
    ensures var r := ApplyHits(push, vitals, teams, source, policy, hits);
            |hits| == |r.outcomes| && r.knockbacks == PushesOf(push, hits, r.outcomes)
    decreases hits
  {
    EveryHitIsAnswered(push, vitals, teams, source, policy, hits);
    if hits != [] {
      var head := LandHit(push, vitals, teams, source, policy, hits[0]);
      var rest := ApplyHits(push, head.vitals, teams, source, policy, hits[1..]);
      ImpulsesAreExact(push, head.vitals, teams, source, policy, hits[1..]);
      assert (head.outcomes + rest.outcomes)[0] == head.outcomes[0];
      assert (head.outcomes + rest.outcomes)[1..] == rest.outcomes;
    }
  }

  /** An entity that no hit targets keeps its pool and is in no outcome. */
  lemma {:induction false} UntargetedIsUntouched(push: PlannedHit -> Knockback, vitals: Vitals,
      teams: map<EntityId, TeamId>, source: DamageSource, policy: Policy, hits: seq<PlannedHit>, entity: EntityId)
    requires forall h :: h in hits ==> h.target != entity
    ensures var r := ApplyHits(push, vitals, teams, source, policy, hits);
            && (entity in vitals <==> entity in r.vitals)
            && (entity in vitals ==> r.vitals[entity] == vitals[entity])
            && (forall o :: o in r.outcomes ==> o.target != entity)
    decreases hits
  {
    if hits != [] {
      var (after, outcome) := HitEntity(vitals, teams, hits[0].target, hits[0].amount, source, policy);
      HitIsAccounted(vitals, teams, hits[0].target, hits[0].amount, source, policy);
      assert hits[0] in hits;
      UntargetedIsUntouched(push, after, teams, source, policy, hits[1..], entity);
    }
  }
}
