/**
 When the arrival order of fire intents matters (packages/simulation/src/combat.ts), and what a
 tick keeps of the weapon table.
 */
module FireOrder {
  import opened Wrappers
  import opened Sorting
  import opened Text
  import opened Geometry
  import opened Damage
  import opened World
  import opened Delivery
  import opened Projectiles
  import opened Weapon
  import opened Combat
  import opened CombatRuns

  // ----- the weapon table -----

  /** The same weapon in the same hands, whatever its state. */
  predicate SameArm(a: EquippedWeapon, b: EquippedWeapon)
  {
    a.entity == b.entity && a.definition == b.definition && a.delivery == b.delivery
  }

  lemma {:induction false} LookupPut(table: seq<EquippedWeapon>, w: EquippedWeapon, e: EntityId, id: WeaponId)
    ensures Lookup(Put(table, w), e, id) == if Keyed(w, e, id) then Some(w) else Lookup(table, e, id)
  {
    if table != [] {
      LookupPut(table[1..], w, e, id);
    }
  }

  lemma {:induction false} LookupIsKeyed(table: seq<EquippedWeapon>, e: EntityId, id: WeaponId)
    ensures Lookup(table, e, id).Some? ==> Keyed(Lookup(table, e, id).value, e, id)
  {
    if table != [] {
      LookupIsKeyed(table[1..], e, id);
    }
  }

  lemma {:induction false} LookupCool(table: seq<EquippedWeapon>, e: EntityId, id: WeaponId)
    ensures var before, after := Lookup(table, e, id), Lookup(CoolAll(table), e, id);
            after == if before.Some? then Some(Cooled(before.value)) else None
  {
    if table != [] {
      LookupCool(table[1..], e, id);
    }
  }

  /** Under every key the two tables hold the same weapon, or both nothing. */
  ghost predicate SameArms(a: seq<EquippedWeapon>, b: seq<EquippedWeapon>)
  {
    forall e, id :: SameArmAt(a, b, e, id)
  }

  predicate SameArmAt(a: seq<EquippedWeapon>, b: seq<EquippedWeapon>, e: EntityId, id: WeaponId)
  {
    var v, w := Lookup(a, e, id), Lookup(b, e, id);
    (v.Some? <==> w.Some?) && (v.Some? ==> SameArm(v.value, w.value))
  }

  lemma CoolingKeepsArms(table: seq<EquippedWeapon>)
    ensures SameArms(table, CoolAll(table))
  {
    forall e, id ensures SameArmAt(table, CoolAll(table), e, id) {
      LookupCool(table, e, id);
    }
  }

  lemma FireOneKeepsArms(env: Env, t: Tally, intent: FireIntent)
    ensures SameArms(t.table, FireOne(env, t, intent).table)
  {
    var found := Lookup(t.table, intent.entity, intent.weapon);
    LookupIsKeyed(t.table, intent.entity, intent.weapon);
    forall e, id ensures SameArmAt(t.table, FireOne(env, t, intent).table, e, id) {
      if found.Some? {
        var w := found.value;
        LookupPut(t.table, w.(state := FireWeapon(w.definition, w.state).0), e, id);
      }
    }
  }

  lemma SameArmsInTurn(a: seq<EquippedWeapon>, b: seq<EquippedWeapon>, c: seq<EquippedWeapon>)
    requires SameArms(a, b) && SameArms(b, c)
    ensures SameArms(a, c)
  {
    forall e, id ensures SameArmAt(a, c, e, id) {
      assert SameArmAt(a, b, e, id) && SameArmAt(b, c, e, id);
    }
  }

  /** The table a tick starts from. */
  function TableOf(state: TickState): seq<EquippedWeapon>
  {
    PutAll([], SortBy(state.weapons, WeaponLeq))
  }

  /** Where the fire phase of a tick starts. */
  function StartOf(state: TickState, vitals: Vitals, cursor: nat): Tally
  {
    var table := TableOf(state);
    Tally(CoolAll(table), vitals, cursor, [], state.nextProjectileId, Reloads(table), [])
  }

  // ----- intents without a weapon -----

  predicate Armed(table: seq<EquippedWeapon>, intent: FireIntent)
  {
    Lookup(table, intent.entity, intent.weapon).Some?
  }

  lemma {:induction false} UnarmedAreSkipped(env: Env, t: Tally, intents: seq<FireIntent>, armed: FireIntent -> bool)
    requires forall i :: armed(i) == Armed(t.table, i)
    ensures FireAll(env, t, intents) == FireAll(env, t, Filter(intents, armed))
    decreases intents
  {
    if intents != [] {
      var next := FireOne(env, t, intents[0]);
      FireOneKeepsArms(env, t, intents[0]);
      forall i ensures armed(i) == Armed(next.table, i) {
        assert SameArmAt(t.table, next.table, i.entity, i.weapon);
      }
      UnarmedAreSkipped(env, next, intents[1..], armed);
      if armed(intents[0]) {
        assert Filter(intents, armed)[1..] == Filter(intents[1..], armed);
      }
    }
  }

  // ----- the order of intents -----

  lemma IntentPreorder()
    ensures TotalPreorder(IntentLeq)
  {
    TextPreorder();
    forall a, b ensures IntentLeq(a, b) || IntentLeq(b, a) {
      assert TextLeq(a.weapon, b.weapon) || TextLeq(b.weapon, a.weapon);
    }
    forall a, b, c | IntentLeq(a, b) && IntentLeq(b, c) ensures IntentLeq(a, c) {
      assert TextLeq(a.weapon, b.weapon) && TextLeq(b.weapon, c.weapon) ==> TextLeq(a.weapon, c.weapon);
    }
  }

  /** Both fire the same weapon of the same entity. */
  predicate SameTrigger(a: FireIntent, b: FireIntent)
  {
    a.entity == b.entity && a.weapon == b.weapon
  }

  lemma TiesPullTheSameTrigger(a: FireIntent, b: FireIntent)
    ensures IntentLeq(a, b) && IntentLeq(b, a) <==> SameTrigger(a, b)
  {
    TextTotal(a.weapon, b.weapon);
  }

  /** No two different intents fire the same weapon. */
  ghost predicate OneIntentPerWeapon(intents: seq<FireIntent>)
  {
    forall a, b :: a in intents && b in intents && SameTrigger(a, b) ==> a == b
  }

  lemma NoTies(intents: seq<FireIntent>)
    ensures TiesAreEqual(intents, IntentLeq) <==> OneIntentPerWeapon(intents)
  {
    forall a, b ensures IntentLeq(a, b) && IntentLeq(b, a) <==> SameTrigger(a, b) {
      TiesPullTheSameTrigger(a, b);
    }
  }

  /**
   Intents are processed in the same order however they arrive exactly when no two different ones
   fire the same weapon.
   */
  lemma FiringOrderIsForgottenIff(intents: seq<FireIntent>)
    ensures OrderIsForgotten(intents, IntentLeq) <==> OneIntentPerWeapon(intents)
  {
    IntentPreorder();
    OrderIsForgottenIff(intents, IntentLeq);
    NoTies(intents);
  }

  /** A tick is decided by the intents that name a weapon on the table. */
  lemma OnlyArmedIntentsMatter(env: Env, vitals: Vitals, state: TickState, cursor: nat, intents: seq<FireIntent>,
                               armed: FireIntent -> bool)
    requires forall i :: armed(i) == Armed(TableOf(state), i)
    ensures FirePhase(env, vitals, state, cursor, intents) ==
            FireAll(env, StartOf(state, vitals, cursor), SortBy(Filter(intents, armed), IntentLeq))
  {
    var start := StartOf(state, vitals, cursor);
    CoolingKeepsArms(TableOf(state));
    forall i ensures armed(i) == Armed(start.table, i) {
      assert SameArmAt(TableOf(state), start.table, i.entity, i.weapon);
    }
    UnarmedAreSkipped(env, start, SortBy(intents, IntentLeq), armed);
    IntentPreorder();
    FilterSort(intents, IntentLeq, armed);
  }

  /**
   A tick does not depend on the order in which its intents arrive when no two different ones fire
   the same weapon on the table; intents that name no such weapon do not count.
   */
  lemma TickForgetsIntentOrder(env: Env, vitals: Vitals, state: TickState, cursor: nat,
                               intents: seq<FireIntent>, other: seq<FireIntent>, armed: FireIntent -> bool)
    requires forall i :: armed(i) == Armed(TableOf(state), i)
    requires multiset(intents) == multiset(other) && OneIntentPerWeapon(Filter(intents, armed))
    ensures RunTick(env, vitals, state, cursor, intents) == RunTick(env, vitals, state, cursor, other)
  {
    OnlyArmedIntentsMatter(env, vitals, state, cursor, intents, armed);
    OnlyArmedIntentsMatter(env, vitals, state, cursor, other, armed);
    forall x ensures multiset(Filter(intents, armed))[x] == multiset(Filter(other, armed))[x] {
      FilterCount(intents, armed, x);
      FilterCount(other, armed, x);
    }
    NoTies(Filter(intents, armed));
    IntentPreorder();
    SortForgetsOrder(Filter(intents, armed), Filter(other, armed), IntentLeq);
  }

  // ----- a tied input -----

  /** A loaded weapon that launches projectiles and then needs a tick to cool. */
  const LAUNCHER := EquippedWeapon(1, WeaponDefinition("launcher", 1.0, 1, 2, 1),
                                   ProjectileDelivery(1.0, 1.0, 5, 1.0, NoFalloff, 0.0), WeaponState(2, 0, 0, 0))

  const FROM_LEFT := FireIntent(1, "launcher", Vec2(1.0, 0.0), Some(Vec2(0.0, 0.0)), None, [])

  const FROM_RIGHT := FireIntent(1, "launcher", Vec2(1.0, 0.0), Some(Vec2(9.0, 0.0)), None, [])

  const ARMED_STATE := TickState([LAUNCHER], [], 1)

  /** The first intent that finds a ready launcher decides where the projectile starts. */
  lemma FirstIntentLaunches(env: Env, t: Tally, intents: seq<FireIntent>)
    requires t.results == [] && intents != [] && intents[0].origin.Some?
    requires Lookup(t.table, intents[0].entity, intents[0].weapon) == Some(LAUNCHER)
    ensures var results := FireAll(env, t, intents).results;
            |results| >= 2 && results[1].ProjectileSpawned? && results[1].at == intents[0].origin.value
  {
    FireOneAdds(env, t, intents[0]);
    LaterFiresAppend(env, FireOne(env, t, intents[0]), intents[1..]);
  }

  lemma {:induction false} LaterFiresAppend(env: Env, t: Tally, intents: seq<FireIntent>)
    ensures t.results <= FireAll(env, t, intents).results
    decreases intents
  {
    if intents != [] {
      FireOneAdds(env, t, intents[0]);
      LaterFiresAppend(env, FireOne(env, t, intents[0]), intents[1..]);
    }
  }

  lemma StartOfArmed(vitals: Vitals, cursor: nat)
    ensures var start := StartOf(ARMED_STATE, vitals, cursor);
            start.results == [] && Lookup(start.table, 1, "launcher") == Some(LAUNCHER)
  {
    assert SortBy([LAUNCHER], WeaponLeq) == [LAUNCHER];
    assert PutAll(Put([], LAUNCHER), []) == [LAUNCHER];
    assert TableOf(ARMED_STATE) == [LAUNCHER];
    assert AdvanceWeapon(LAUNCHER.definition, LAUNCHER.state, 1) == (LAUNCHER.state, None);
    assert Reloads([LAUNCHER]) == [] + Reloads([]);
    LookupCool([LAUNCHER], 1, "launcher");
  }

  lemma SortedPair(a: FireIntent, b: FireIntent)
    requires IntentLeq(a, b)
    ensures SortBy([a, b], IntentLeq) == [a, b]
  {
    assert [a, b][1..] == [b];
    assert SortBy([b], IntentLeq) == [b];
  }

  /** Two intents for one launcher: whichever arrives first launches from its own origin. */
  lemma IntentOrderCanMatter(env: Env, vitals: Vitals, cursor: nat)
    ensures RunTick(env, vitals, ARMED_STATE, cursor, [FROM_LEFT, FROM_RIGHT]) !=
            RunTick(env, vitals, ARMED_STATE, cursor, [FROM_RIGHT, FROM_LEFT])
  {
    var start := StartOf(ARMED_STATE, vitals, cursor);
    TiesPullTheSameTrigger(FROM_LEFT, FROM_RIGHT);
    SortedPair(FROM_LEFT, FROM_RIGHT);
    SortedPair(FROM_RIGHT, FROM_LEFT);
    StartOfArmed(vitals, cursor);
    FirstIntentLaunches(env, start, [FROM_LEFT, FROM_RIGHT]);
    FirstIntentLaunches(env, start, [FROM_RIGHT, FROM_LEFT]);
    NothingFlies(env, vitals, cursor, [FROM_LEFT, FROM_RIGHT]);
    NothingFlies(env, vitals, cursor, [FROM_RIGHT, FROM_LEFT]);
  }

  lemma NothingFlies(env: Env, vitals: Vitals, cursor: nat, intents: seq<FireIntent>)
    requires SortBy(intents, IntentLeq) == intents
    ensures RunTick(env, vitals, ARMED_STATE, cursor, intents).results ==
            FireAll(env, StartOf(ARMED_STATE, vitals, cursor), intents).results
  {
    assert SortBy(ARMED_STATE.projectiles, ProjectileLeq) == [];
  }
}
