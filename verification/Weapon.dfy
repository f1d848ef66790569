/**
 Firing cadence and ammunition (packages/simulation/src/weapon.ts and ammo.ts).
 */
module Weapon {
  import opened Wrappers
  import Geometry

  type WeaponId = string

  datatype WeaponDefinition = WeaponDefinition(id: WeaponId, damage: real, cooldownTicks: int, magazineSize: int,
                                               reloadTicks: int)
  {
    /** What `makeWeaponDefinition` enforces. */
    predicate Structural() { damage >= 0.0 && cooldownTicks >= 0 && magazineSize >= 1 && reloadTicks >= 0 }
  }

  datatype WeaponState = WeaponState(ammoInMagazine: int, cooldownRemaining: int, reloadRemaining: int,
                                     reloadAmount: int)

  function InitialWeaponState(definition: WeaponDefinition): WeaponState
  {
    WeaponState(definition.magazineSize, 0, 0, 0)
  }

  datatype FireOutcome =
    | WeaponFired(weapon: WeaponId, damage: real, ammoRemaining: int)
    | WeaponOnCooldown(weapon: WeaponId, cooldownRemaining: int)
    | WeaponReloading(weapon: WeaponId, reloadRemaining: int)
    | WeaponOutOfAmmo(weapon: WeaponId)

  function FireWeapon(definition: WeaponDefinition, state: WeaponState): (WeaponState, FireOutcome)
  {
    if state.reloadRemaining > 0 then (state, WeaponReloading(definition.id, state.reloadRemaining))
    else if state.cooldownRemaining > 0 then (state, WeaponOnCooldown(definition.id, state.cooldownRemaining))
    else if state.ammoInMagazine <= 0 then (state, WeaponOutOfAmmo(definition.id))
    else
      var left := state.ammoInMagazine - 1;
      (WeaponState(left, definition.cooldownTicks, 0, 0), WeaponFired(definition.id, definition.damage, left))
  }

  datatype ReloadCompleted = ReloadCompleted(weapon: WeaponId, ammoLoaded: int, ammoRemaining: int)

  function MaxInt(a: int, b: int): int { if a >= b then a else b }
  function MinInt(a: int, b: int): int { if a <= b then a else b }

  function AdvanceWeapon(definition: WeaponDefinition, state: WeaponState,
                         ticks: nat): (WeaponState, Option<ReloadCompleted>)
  {
    var cooldown := MaxInt(0, state.cooldownRemaining - ticks);
    if state.reloadRemaining <= 0 then
      if cooldown == state.cooldownRemaining then (state, None)
      else (WeaponState(state.ammoInMagazine, cooldown, 0, 0), None)
    else
      var reload := state.reloadRemaining - ticks;
      if reload > 0 then (WeaponState(state.ammoInMagazine, cooldown, reload, state.reloadAmount), None)
      else
        var loaded := state.ammoInMagazine + state.reloadAmount;
        (WeaponState(loaded, cooldown, 0, 0), Some(ReloadCompleted(definition.id, state.reloadAmount, loaded)))
  }

  datatype ReloadIgnoredReason = AlreadyFull | AlreadyReloading | NoReserve

  datatype ReloadOutcome =
    | ReloadStarted(weapon: WeaponId, reloadRemaining: int)
    | ReloadDone(completed: ReloadCompleted)
    | ReloadIgnored(weapon: WeaponId, reason: ReloadIgnoredReason)

  datatype ReloadResult = ReloadResult(state: WeaponState, outcome: ReloadOutcome, ammoLoaded: int)

  function BeginReload(definition: WeaponDefinition, state: WeaponState, reserveAvailable: real): ReloadResult
  {
    if state.reloadRemaining > 0 then ReloadResult(state, ReloadIgnored(definition.id, AlreadyReloading), 0)
    else if state.ammoInMagazine >= definition.magazineSize then
      ReloadResult(state, ReloadIgnored(definition.id, AlreadyFull), 0)
    else
      var deficit := definition.magazineSize - state.ammoInMagazine;
      var loaded := MinInt(deficit, MaxInt(0, reserveAvailable.Floor));
      if loaded <= 0 then ReloadResult(state, ReloadIgnored(definition.id, NoReserve), 0)
      else if definition.reloadTicks <= 0 then
        var held := state.ammoInMagazine + loaded;
        ReloadResult(WeaponState(held, state.cooldownRemaining, 0, 0),
                     ReloadDone(ReloadCompleted(definition.id, loaded, held)), loaded)
      else
        ReloadResult(WeaponState(state.ammoInMagazine, state.cooldownRemaining, definition.reloadTicks, loaded),
                     ReloadStarted(definition.id, definition.reloadTicks), loaded)
  }

  /** Advancing `a + b` ticks is advancing `a` and then `b`: same state, and the same reload completion if any. */
  lemma AdvanceComposes(definition: WeaponDefinition, state: WeaponState, a: nat, b: nat)
    ensures var (once, reload) := AdvanceWeapon(definition, state, a + b);
            var (first, early) := AdvanceWeapon(definition, state, a);
            var (second, late) := AdvanceWeapon(definition, first, b);
            once == second && reload == (if early.Some? then early else late) && !(early.Some? && late.Some?)
  {
  }

  // ----- when a weapon fires -----

  /** Whether the weapon may fire: nothing is being loaded, nothing cools, and a round is chambered. */
  predicate Ready(state: WeaponState)
  {
    state.reloadRemaining <= 0 && state.cooldownRemaining <= 0 && state.ammoInMagazine >= 1
  }

  /**
   A weapon fires exactly when it is ready: one round, its own damage, its own cooldown. A refusal
   names its reason, the first of reload, cooldown and empty magazine, and changes nothing.
   */
  lemma FiresWhenReady(definition: WeaponDefinition, state: WeaponState)
    ensures var (after, outcome) := FireWeapon(definition, state);
            && outcome.weapon == definition.id
            && (outcome.WeaponFired? <==> Ready(state))
            && (outcome.WeaponReloading? <==> state.reloadRemaining > 0)
            && (outcome.WeaponOnCooldown? <==> state.reloadRemaining <= 0 && state.cooldownRemaining > 0)
            && (outcome.WeaponOutOfAmmo? <==>
                  state.reloadRemaining <= 0 && state.cooldownRemaining <= 0 && state.ammoInMagazine <= 0)
            && (outcome.WeaponFired? ==>
                  && outcome.damage == definition.damage && outcome.ammoRemaining == state.ammoInMagazine - 1
                  && after == WeaponState(state.ammoInMagazine - 1, definition.cooldownTicks, 0, 0))
            && (!outcome.WeaponFired? ==> after == state)
            && (outcome.WeaponReloading? ==> outcome.reloadRemaining == state.reloadRemaining)
            && (outcome.WeaponOnCooldown? ==> outcome.cooldownRemaining == state.cooldownRemaining)
  {
  }

  /** The active reload completes within `ticks`. */
  predicate LoadsWithin(state: WeaponState, ticks: nat)
  {
    0 < state.reloadRemaining <= ticks
  }

  /** The rounds chambered after `ticks`. */
  function ChamberedAfter(state: WeaponState, ticks: nat): int
  {
    state.ammoInMagazine + if LoadsWithin(state, ticks) then state.reloadAmount else 0
  }

  /**
   What pulling the trigger does after any wait, told from the state before the wait: the timers run
   down a tick at a time, the rounds being loaded arrive when the reload ends and not before, and
   the completion is reported then.
   */
  lemma FiresAfter(definition: WeaponDefinition, state: WeaponState, ticks: nat)
    ensures var (later, reload) := AdvanceWeapon(definition, state, ticks);
            var (after, outcome) := FireWeapon(definition, later);
            var chambered := ChamberedAfter(state, ticks);
            && later.ammoInMagazine == chambered
            && later.cooldownRemaining == MaxInt(0, state.cooldownRemaining - ticks)
            && (state.reloadRemaining > ticks <==> later.reloadRemaining > 0)
            && reload == (if LoadsWithin(state, ticks)
                          then Some(ReloadCompleted(definition.id, state.reloadAmount, chambered)) else None)
            && outcome == (if state.reloadRemaining > ticks
                           then WeaponReloading(definition.id, state.reloadRemaining - ticks)
                           else if state.cooldownRemaining > ticks
                           then WeaponOnCooldown(definition.id, state.cooldownRemaining - ticks)
                           else if chambered <= 0 then WeaponOutOfAmmo(definition.id)
                           else WeaponFired(definition.id, definition.damage, chambered - 1))
            && after == if outcome.WeaponFired? then WeaponState(chambered - 1, definition.cooldownTicks, 0, 0)
                        else later
  {
  }

  // ----- how much a reload takes -----

  /** `rounds` can be loaded: they are in reserve and fit the magazine. */
  predicate Loadable(definition: WeaponDefinition, state: WeaponState, reserve: real, rounds: int)
  {
    0 <= rounds && rounds as real <= Geometry.Max(reserve, 0.0)
    && state.ammoInMagazine + rounds <= definition.magazineSize
  }

  /** A reload starts unless one is active, the magazine is full or no whole round is in reserve. */
  predicate MayReload(definition: WeaponDefinition, state: WeaponState, reserve: real)
  {
    state.reloadRemaining <= 0 && state.ammoInMagazine < definition.magazineSize && reserve >= 1.0
  }

  /**
   A reload takes the most rounds that are in reserve and fit the magazine, and none when it is
   refused; a refusal names its reason and changes nothing; otherwise the rounds are in the magazine
   at once or under way for the reload time.
   */
  lemma ReloadTakesTheMost(definition: WeaponDefinition, state: WeaponState, reserve: real)
    ensures var r := BeginReload(definition, state, reserve);
            && (r.ammoLoaded > 0 <==> MayReload(definition, state, reserve))
            && (MayReload(definition, state, reserve) ==>
                  && Loadable(definition, state, reserve, r.ammoLoaded)
                  && (forall n :: Loadable(definition, state, reserve, n) ==> n <= r.ammoLoaded)
                  && var held := state.ammoInMagazine + r.ammoLoaded;
                     if definition.reloadTicks <= 0 then
                       && r.state == WeaponState(held, state.cooldownRemaining, 0, 0)
                       && r.outcome == ReloadDone(ReloadCompleted(definition.id, r.ammoLoaded, held))
                     else
                       && r.state == WeaponState(state.ammoInMagazine, state.cooldownRemaining, definition.reloadTicks,
                                                 r.ammoLoaded)
                       && r.outcome == ReloadStarted(definition.id, definition.reloadTicks))
            && (!MayReload(definition, state, reserve) ==>
                  && r.ammoLoaded == 0 && r.state == state
                  && r.outcome == ReloadIgnored(definition.id,
                                                if state.reloadRemaining > 0 then AlreadyReloading
                                                else if state.ammoInMagazine >= definition.magazineSize then AlreadyFull
                                                else NoReserve))
  {
    var r := BeginReload(definition, state, reserve);
    forall n | Loadable(definition, state, reserve, n) && MayReload(definition, state, reserve)
      ensures n <= r.ammoLoaded
    {
      assert n <= reserve.Floor;
    }
  }
}
