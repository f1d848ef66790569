/**
 Vitality pools, hostility and damage resolution (packages/simulation/src/health.ts,
 hit-policy.ts, damage.ts and `applyDamageToEntity` of world.ts).
 */
module Damage {
  import opened Wrappers
  import Geometry

  type EntityId = int
  type TeamId = string

  datatype Health = Health(current: real, max: real)
  {
    predicate IsDefeated() { current <= 0.0 }
    predicate InPool() { 0.0 <= current <= max }
  }

  function Clamp(value: real, min: real, max: real): real
  {
    Geometry.Min(Geometry.Max(value, min), max)
  }

  function ApplyDamageToHealth(health: Health, amount: real): Health
  {
    var damage := if amount > 0.0 then amount else 0.0;
    Health(Clamp(health.current - damage, 0.0, health.max), health.max)
  }

  datatype HitContext = HitContext(
    source: Option<EntityId>,
    sourceTeam: Option<TeamId>,
    target: EntityId,
    targetTeam: Option<TeamId>)

  /** Mode-injected hostility rule. */
  type Policy = HitContext -> bool

  datatype DamageSource = DamageSource(entity: Option<EntityId>, team: Option<TeamId>)

  datatype IgnoredReason = NotHostile | AlreadyDefeated | NoOp

  datatype DamageOutcome =
    | DamageApplied(target: EntityId, amount: real, healthBefore: real, healthAfter: real)
    | EntityDefeated(target: EntityId, amount: real, healthBefore: real)
    | DamageIgnored(target: EntityId, reason: IgnoredReason)

  datatype DamageResolution = DamageResolution(health: Health, outcome: DamageOutcome)

  function ResolveDamage(target: EntityId, team: Option<TeamId>, health: Health, amount: real, source: DamageSource,
                         policy: Policy): DamageResolution
  {
    if health.IsDefeated() then
      DamageResolution(health, DamageIgnored(target, AlreadyDefeated))
    else if !policy(HitContext(source.entity, source.team, target, team)) then
      DamageResolution(health, DamageIgnored(target, NotHostile))
    else
      var after := ApplyDamageToHealth(health, amount);
      var applied := health.current - after.current;
      if applied <= 0.0 then
        DamageResolution(health, DamageIgnored(target, NoOp))
      else if after.IsDefeated() then
        DamageResolution(after, EntityDefeated(target, applied, health.current))
      else
        DamageResolution(after, DamageApplied(target, applied, health.current, after.current))
  }

  /** Whether an outcome carries damage: the guard for knockback and status effects. */
  predicate DamageDealt(outcome: DamageOutcome)
  {
    outcome.DamageApplied? || outcome.EntityDefeated?
  }

  type Vitals = map<EntityId, Health>

  function TeamOf(teams: map<EntityId, TeamId>, entity: EntityId): Option<TeamId>
  {
    if entity in teams then Some(teams[entity]) else None
  }

  /** One hit against the health held by the world; a target without a pool is a no-op. */
  function HitEntity(vitals: Vitals, teams: map<EntityId, TeamId>, target: EntityId, amount: real,
                     source: DamageSource, policy: Policy): (Vitals, DamageOutcome)
  {
    if target !in vitals then (vitals, DamageIgnored(target, NoOp))
    else
      var resolution := ResolveDamage(target, TeamOf(teams, target), vitals[target], amount, source, policy);
      (vitals[target := resolution.health], resolution.outcome)
  }

  // ----- what a hit takes -----

  /** What a hit of `amount` takes from a pool: no more than is left, and whatever is above the maximum. */
  function Taken(health: Health, amount: real): real
  {
    Geometry.Max(Geometry.Min(Geometry.Max(amount, 0.0), health.current), health.current - health.max)
  }

  /** The target stands and the policy lets the source hurt it. */
  predicate Exposed(vitals: Vitals, teams: map<EntityId, TeamId>, target: EntityId, source: DamageSource,
                    policy: Policy)
  {
    && target in vitals && !vitals[target].IsDefeated()
    && policy(HitContext(source.entity, source.team, target, TeamOf(teams, target)))
  }

  /**
   Why and how much: the pool of an exposed target loses what `Taken` says and no more, with a
   defeat reported exactly when the hit is as large as what is left; everybody else is told why
   nothing happened.
   */
  lemma HitTakes(vitals: Vitals, teams: map<EntityId, TeamId>, target: EntityId, amount: real, source: DamageSource,
                 policy: Policy)
    ensures var (after, outcome) := HitEntity(vitals, teams, target, amount, source, policy);
            var taken := if target in vitals then Taken(vitals[target], amount) else 0.0;
            && (outcome == DamageIgnored(target, AlreadyDefeated) <==> target in vitals && vitals[target].IsDefeated())
            && (outcome == DamageIgnored(target, NotHostile) <==>
                  target in vitals && !vitals[target].IsDefeated()
                  && !Exposed(vitals, teams, target, source, policy))
            && (outcome == DamageIgnored(target, NoOp) <==>
                  target !in vitals || (Exposed(vitals, teams, target, source, policy) && taken <= 0.0))
            && (DamageDealt(outcome) <==> Exposed(vitals, teams, target, source, policy) && taken > 0.0)
            && (outcome.DamageIgnored? ==> after == vitals)
            && (DamageDealt(outcome) ==>
                  var left := vitals[target].current - taken;
                  && after == vitals[target := Health(left, vitals[target].max)]
                  && outcome == if left <= 0.0 then EntityDefeated(target, taken, vitals[target].current)
                                else DamageApplied(target, taken, vitals[target].current, left))
  {
    if target in vitals {
      var h := vitals[target];
      var resolution := ResolveDamage(target, TeamOf(teams, target), h, amount, source, policy);
      assert ApplyDamageToHealth(h, amount).current == h.current - Taken(h, amount);
      assert resolution.health == h ==> vitals[target := h] == vitals;
    }
  }

  /**
   A pool within its bounds loses the lesser of the amount and what is left, and is reported
   defeated exactly when the amount is not less than what was left.
   */
  lemma HitTakesTheLesser(vitals: Vitals, teams: map<EntityId, TeamId>, target: EntityId, amount: real,
                          source: DamageSource, policy: Policy)
    requires Exposed(vitals, teams, target, source, policy) && vitals[target].InPool()
    ensures var (after, outcome) := HitEntity(vitals, teams, target, amount, source, policy);
            var h := vitals[target];
            if amount <= 0.0 then after == vitals && outcome == DamageIgnored(target, NoOp)
            else
              && after == vitals[target := Health(h.current - Geometry.Min(amount, h.current), h.max)]
              && outcome == if amount >= h.current then EntityDefeated(target, h.current, h.current)
                            else DamageApplied(target, amount, h.current, h.current - amount)
  {
    HitTakes(vitals, teams, target, amount, source, policy);
  }

  // ----- the health ledger -----

  /** The health an outcome reports to have taken from `entity`. */
  function DealtTo(outcome: DamageOutcome, entity: EntityId): real
  {
    if outcome.target == entity && DamageDealt(outcome) then outcome.amount else 0.0
  }

  /** How one hit may change the pools: exactly by what its outcome reports. */
  ghost predicate Accounted(before: Vitals, after: Vitals, outcome: DamageOutcome)
  {
    && after.Keys == before.Keys
    && forall e :: e in before ==>
         && after[e].current == before[e].current - DealtTo(outcome, e)
         && after[e].max == before[e].max
         && (before[e].InPool() ==> after[e].InPool())
         && (before[e].IsDefeated() ==> after[e] == before[e])
         && (outcome.DamageIgnored? ==> after[e] == before[e])
         && (outcome.EntityDefeated? && outcome.target == e <==> !before[e].IsDefeated() && after[e].IsDefeated())
  }

  /**
   A hit is paid for in full: the target loses exactly the reported amount, everyone
   else is untouched, pools stay in bounds, the defeated are left alone, and a reported
   defeat is the moment the pool empties.
   */
  lemma HitIsAccounted(vitals: Vitals, teams: map<EntityId, TeamId>, target: EntityId, amount: real,
                       source: DamageSource, policy: Policy)
    ensures var (after, outcome) := HitEntity(vitals, teams, target, amount, source, policy);
            && Accounted(vitals, after, outcome)
            && outcome.target == target
            && (DamageDealt(outcome) ==> outcome.amount > 0.0)
  {
  }
}
