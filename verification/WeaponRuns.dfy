/**
 What ticks do to weapons (packages/simulation/src/combat.ts and weapon.ts): every trigger pull is
 paid for, shots of one weapon are a cooldown apart, and idle weapons only run down their timers.
 */
module WeaponRuns {
  import opened Wrappers
  import opened Sorting
  import opened Text
  import opened Damage
  import opened World
  import opened Delivery
  import opened Projectiles
  import opened Weapon
  import opened Combat
  import opened CombatRuns
  import opened FireOrder

  // ----- one weapon -----

  /** The rounds of a weapon: chambered or being loaded. */
  function Rounds(state: WeaponState): int
  {
    state.ammoInMagazine + if state.reloadRemaining > 0 then state.reloadAmount else 0
  }

  /** The state after pulling the trigger `n` times, and what was answered each time. */
  function Pulled(definition: WeaponDefinition, state: WeaponState, n: nat): (WeaponState, seq<FireOutcome>)
    decreases n
  {
    if n == 0 then (state, [])
    else
      var (next, outcome) := FireWeapon(definition, state);
      var (end, outcomes) := Pulled(definition, next, n - 1);
      (end, [outcome] + outcomes)
  }

  function ShotsAmong(outcomes: seq<FireOutcome>): nat
  {
    if outcomes == [] then 0 else (if outcomes[0].WeaponFired? then 1 else 0) + ShotsAmong(outcomes[1..])
  }

  /**
   Pulls within one tick: each shot costs one round; after a shot the weapon has its whole cooldown
   before it, so a second shot in the tick needs a weapon without cooldown; and without a shot
   nothing changes.
   */
  lemma {:induction false} PullsArePaidFor(definition: WeaponDefinition, state: WeaponState, n: nat)
    ensures var (end, outcomes) := Pulled(definition, state, n);
            && |outcomes| == n && Rounds(end) + ShotsAmong(outcomes) == Rounds(state)
            && (ShotsAmong(outcomes) == 0 ==> end == state)
            && (ShotsAmong(outcomes) > 0 ==>
                  Ready(state) && end.cooldownRemaining == definition.cooldownTicks && end.reloadRemaining == 0)
            && (ShotsAmong(outcomes) > 1 ==> definition.cooldownTicks <= 0)
            && (n > 0 && Ready(state) ==> outcomes[0].WeaponFired?)
    decreases n
  {
    if n > 0 {
      var (next, outcome) := FireWeapon(definition, state);
      FiresWhenReady(definition, state);
      PullsArePaidFor(definition, next, n - 1);
    }
  }

  lemma AdvancingKeepsRounds(definition: WeaponDefinition, state: WeaponState, ticks: nat)
    ensures Rounds(AdvanceWeapon(definition, state, ticks).0) == Rounds(state)
  {
    FiresAfter(definition, state, ticks);
  }

  // ----- the weapon table -----

  /** No two entries of the table have the same key. */
  ghost predicate Unique(table: seq<EquippedWeapon>)
  {
    table == [] || (Lookup(table[1..], table[0].entity, table[0].definition.id).None? && Unique(table[1..]))
  }

  /** Entries with the same key are the same. */
  ghost predicate OnePerKey(weapons: seq<EquippedWeapon>)
  {
    forall v, w :: v in weapons && w in weapons && Keyed(v, w.entity, w.definition.id) ==> v == w
  }

  lemma {:induction false} PutUnique(table: seq<EquippedWeapon>, w: EquippedWeapon)
    requires Unique(table)
    ensures Unique(Put(table, w))
  {
    if table != [] {
      PutUnique(table[1..], w);
      LookupPut(table[1..], w, table[0].entity, table[0].definition.id);
    }
  }

  lemma {:induction false} PutAllUnique(table: seq<EquippedWeapon>, weapons: seq<EquippedWeapon>)
    requires Unique(table)
    ensures Unique(PutAll(table, weapons))
    decreases weapons
  {
    if weapons != [] {
      PutUnique(table, weapons[0]);
      PutAllUnique(Put(table, weapons[0]), weapons[1..]);
    }
  }

  lemma {:induction false} CoolAllUnique(table: seq<EquippedWeapon>)
    requires Unique(table)
    ensures Unique(CoolAll(table))
  {
    if table != [] {
      CoolAllUnique(table[1..]);
      LookupCool(table[1..], table[0].entity, table[0].definition.id);
    }
  }

  lemma {:induction false} FireAllUnique(env: Env, t: Tally, intents: seq<FireIntent>)
    requires Unique(t.table)
    ensures Unique(FireAll(env, t, intents).table)
    decreases intents
  {
    if intents != [] {
      var found := Lookup(t.table, intents[0].entity, intents[0].weapon);
      if found.Some? {
        var w := found.value;
        PutUnique(t.table, w.(state := FireWeapon(w.definition, w.state).0));
      }
      FireAllUnique(env, FireOne(env, t, intents[0]), intents[1..]);
    }
  }

  /** What is looked up is on the table, and something is found for every entry. */
  lemma {:induction false} LookupFinds(table: seq<EquippedWeapon>, e: EntityId, id: WeaponId)
    ensures var found := Lookup(table, e, id);
            && (found.Some? ==> found.value in table && Keyed(found.value, e, id))
            && (found.None? ==> forall w :: w in table ==> !Keyed(w, e, id))
  {
    if table != [] {
      LookupFinds(table[1..], e, id);
    }
  }

  lemma {:induction false} UniqueFinds(table: seq<EquippedWeapon>, w: EquippedWeapon)
    requires Unique(table) && w in table
    ensures Lookup(table, w.entity, w.definition.id) == Some(w)
  {
    if table[0] != w {
      UniqueFinds(table[1..], w);
    }
  }

  lemma UniqueIsOnePerKey(table: seq<EquippedWeapon>)
    requires Unique(table)
    ensures OnePerKey(table)
  {
    forall v, w | v in table && w in table && Keyed(v, w.entity, w.definition.id) ensures v == w {
      UniqueFinds(table, v);
      UniqueFinds(table, w);
    }
  }

  lemma {:induction false} LookupPutAll(table: seq<EquippedWeapon>, weapons: seq<EquippedWeapon>, e: EntityId,
                                        id: WeaponId)
    ensures var found := Lookup(PutAll(table, weapons), e, id);
            || (found.Some? && found.value in weapons && Keyed(found.value, e, id))
            || (found == Lookup(table, e, id) && forall w :: w in weapons ==> !Keyed(w, e, id))
    decreases weapons
  {
    if weapons != [] {
      LookupPutAll(Put(table, weapons[0]), weapons[1..], e, id);
      LookupPut(table, weapons[0], e, id);
    }
  }

  /** The weapon a state holds under a key, as the next tick finds it. */
  function Held(state: TickState, e: EntityId, id: WeaponId): Option<EquippedWeapon>
  {
    Lookup(TableOf(state), e, id)
  }

  /** A tick finds a weapon under a key exactly when the state lists one, and then a listed one. */
  lemma HeldIsListed(state: TickState, e: EntityId, id: WeaponId)
    ensures var found := Held(state, e, id);
            && (found.Some? ==> found.value in state.weapons && Keyed(found.value, e, id))
            && (found.None? ==> forall w :: w in state.weapons ==> !Keyed(w, e, id))
  {
    var sorted := SortBy(state.weapons, WeaponLeq);
    SortMultiset(state.weapons, WeaponLeq);
    LookupPutAll([], sorted, e, id);
  }

  /** Sorting a table without doubles and filling the next one from it loses and changes nothing. */
  lemma HeldNextTick(table: seq<EquippedWeapon>, projectiles: seq<Projectile>, nextId: int, e: EntityId, id: WeaponId)
    requires Unique(table)
    ensures Held(TickState(SortBy(table, WeaponLeq), projectiles, nextId), e, id) == Lookup(table, e, id)
  {
    SortMultiset(table, WeaponLeq);
    HeldIsListed(TickState(SortBy(table, WeaponLeq), projectiles, nextId), e, id);
    LookupFinds(table, e, id);
    UniqueIsOnePerKey(table);
  }

  // ----- the order of the table -----

  predicate SameKey(v: EquippedWeapon, w: EquippedWeapon)
  {
    v.entity == w.entity && v.definition.id == w.definition.id
  }

  predicate KeyBefore(v: EquippedWeapon, w: EquippedWeapon)
  {
    v.entity < w.entity || (v.entity == w.entity && TextLess(v.definition.id, w.definition.id))
  }

  /** Strictly by entity, then by weapon. */
  ghost predicate InKeyOrder(table: seq<EquippedWeapon>)
  {
    forall i, j :: 0 <= i < j < |table| ==> KeyBefore(table[i], table[j])
  }

  lemma {:induction false} PutReplaces(table: seq<EquippedWeapon>, w: EquippedWeapon)
    requires Lookup(table, w.entity, w.definition.id).Some?
    ensures |Put(table, w)| == |table| && forall i :: 0 <= i < |table| ==> SameKey(Put(table, w)[i], table[i])
  {
    if !Keyed(table[0], w.entity, w.definition.id) {
      PutReplaces(table[1..], w);
    }
  }

  lemma {:induction false} PutAppends(table: seq<EquippedWeapon>, w: EquippedWeapon)
    requires Lookup(table, w.entity, w.definition.id).None?
    ensures Put(table, w) == table + [w]
  {
    if table != [] {
      PutAppends(table[1..], w);
    }
  }

  lemma SameKeysSameOrder(s: seq<EquippedWeapon>, t: seq<EquippedWeapon>)
    requires |s| == |t| && (forall i :: 0 <= i < |t| ==> SameKey(s[i], t[i])) && InKeyOrder(t)
    ensures InKeyOrder(s)
  {
    forall i, j | 0 <= i < j < |s| ensures KeyBefore(s[i], s[j]) {
      assert KeyBefore(t[i], t[j]);
    }
  }

  /** No entry of the table comes after the weapon. */
  ghost predicate NoneAfter(table: seq<EquippedWeapon>, w: EquippedWeapon)
  {
    forall v :: v in table ==> WeaponLeq(v, w)
  }

  lemma PutKeepsOrder(table: seq<EquippedWeapon>, w: EquippedWeapon)
    requires InKeyOrder(table)
    requires Lookup(table, w.entity, w.definition.id).Some? || NoneAfter(table, w)
    ensures InKeyOrder(Put(table, w))
  {
    if Lookup(table, w.entity, w.definition.id).Some? {
      PutReplaces(table, w);
      SameKeysSameOrder(Put(table, w), table);
    } else {
      PutAppends(table, w);
      LookupFinds(table, w.entity, w.definition.id);
      forall i | 0 <= i < |table| ensures KeyBefore(table[i], w) {
        assert table[i] in table;
        assert WeaponLeq(table[i], w) && !Keyed(table[i], w.entity, w.definition.id);
      }
    }
  }

  lemma {:induction false} PutMembers(table: seq<EquippedWeapon>, w: EquippedWeapon)
    ensures forall v :: v in Put(table, w) ==> v == w || v in table
  {
    if table != [] {
      PutMembers(table[1..], w);
    }
  }

  lemma {:induction false} FilledInOrder(table: seq<EquippedWeapon>, weapons: seq<EquippedWeapon>)
    requires InKeyOrder(table) && Sorted(weapons, WeaponLeq)
    requires forall w :: w in weapons ==> NoneAfter(table, w)
    ensures InKeyOrder(PutAll(table, weapons))
    decreases weapons
  {
    if weapons != [] {
      assert weapons[0] in weapons;
      PutKeepsOrder(table, weapons[0]);
      PutMembers(table, weapons[0]);
      forall w | w in weapons[1..] ensures NoneAfter(Put(table, weapons[0]), w) {
        assert w in weapons;
        var j :| 0 < j < |weapons| && weapons[j] == w;
        assert WeaponLeq(weapons[0], weapons[j]);
      }
      FilledInOrder(Put(table, weapons[0]), weapons[1..]);
    }
  }

  lemma WeaponPreorder()
    ensures TotalPreorder(WeaponLeq)
  {
    TextPreorder();
    forall v, w ensures WeaponLeq(v, w) || WeaponLeq(w, v) {
      assert TextLeq(v.definition.id, w.definition.id) || TextLeq(w.definition.id, v.definition.id);
    }
    forall u, v, w | WeaponLeq(u, v) && WeaponLeq(v, w) ensures WeaponLeq(u, w) {
      assert TextLeq(u.definition.id, v.definition.id) && TextLeq(v.definition.id, w.definition.id) ==>
             TextLeq(u.definition.id, w.definition.id);
    }
  }

  lemma {:induction false} CoolAllKeys(table: seq<EquippedWeapon>)
    ensures |CoolAll(table)| == |table| && forall i :: 0 <= i < |table| ==> SameKey(CoolAll(table)[i], table[i])
  {
    if table != [] {
      CoolAllKeys(table[1..]);
    }
  }

  lemma {:induction false} FireAllInOrder(env: Env, t: Tally, intents: seq<FireIntent>)
    requires InKeyOrder(t.table)
    ensures InKeyOrder(FireAll(env, t, intents).table)
    decreases intents
  {
    if intents != [] {
      var found := Lookup(t.table, intents[0].entity, intents[0].weapon);
      LookupIsKeyed(t.table, intents[0].entity, intents[0].weapon);
      if found.Some? {
        PutKeepsOrder(t.table, found.value.(state := FireWeapon(found.value.definition, found.value.state).0));
      }
      FireAllInOrder(env, FireOne(env, t, intents[0]), intents[1..]);
    }
  }

  /** A tick goes through the weapons, and hands them on, strictly by entity and then by weapon. */
  lemma WeaponsAreOrdered(s: Sim, input: TickInput)
    ensures InKeyOrder(TableOf(s.state)) && InKeyOrder(After(s, input).state.weapons)
  {
    var sorted := SortBy(s.state.weapons, WeaponLeq);
    WeaponPreorder();
    SortSorted(s.state.weapons, WeaponLeq);
    FilledInOrder([], sorted);
    CoolAllKeys(TableOf(s.state));
    SameKeysSameOrder(CoolAll(TableOf(s.state)), TableOf(s.state));
    var start := StartOf(s.state, s.vitals, s.cursor);
    FireAllInOrder(input.env, start, SortBy(input.intents, IntentLeq));
    var t := FirePhase(input.env, s.vitals, s.state, s.cursor, input.intents);
    assert Sorted(t.table, WeaponLeq);
    SortOfSorted(t.table, WeaponLeq);
  }

  // ----- one tick -----

  predicate Names(intent: FireIntent, e: EntityId, id: WeaponId)
  {
    intent.entity == e && intent.weapon == id
  }

  /** How many intents pull the trigger of a weapon. */
  function Pulls(intents: seq<FireIntent>, e: EntityId, id: WeaponId): nat
  {
    if intents == [] then 0 else (if Names(intents[0], e, id) then 1 else 0) + Pulls(intents[1..], e, id)
  }

  /** The answers to trigger pulls among some results. */
  function FireAnswers(results: seq<CombatResult>): seq<FireOutcome>
  {
    if results == [] then []
    else (if results[0].Fired? then [results[0].fire] else []) + FireAnswers(results[1..])
  }

  lemma {:induction false} AnswersAppend(a: seq<CombatResult>, b: seq<CombatResult>)
    ensures FireAnswers(a + b) == FireAnswers(a) + FireAnswers(b)
  {
    if a == [] {
      assert a + b == b;
    } else {
      AnswersAppend(a[1..], b);
      assert (a + b)[0] == a[0] && (a + b)[1..] == a[1..] + b;
      Regroup(if a[0].Fired? then [a[0].fire] else [], FireAnswers(a[1..]), FireAnswers(b));
    }
  }

  lemma {:induction false} NoAnswersAmong(results: seq<CombatResult>)
    requires forall r :: r in results ==> !r.Fired?
    ensures FireAnswers(results) == []
  {
    if results != [] {
      NoAnswersAmong(results[1..]);
    }
  }

  lemma {:induction false} DamageIsNoAnswer(outcomes: seq<DamageOutcome>)
    ensures forall r :: r in DamageResults(outcomes) ==> r.Damaged?
  {
    if outcomes != [] {
      DamageIsNoAnswer(outcomes[1..]);
    }
  }

  lemma {:induction false} EffectsAreNoAnswer(target: EntityId, effects: seq<StatusEffectId>, source: EntityId)
    ensures forall r :: r in StatusesOn(target, effects, source) ==> r.StatusApplied?
  {
    if effects != [] {
      EffectsAreNoAnswer(target, effects[1..], source);
    }
  }

  lemma {:induction false} StatusesAreNoAnswer(outcomes: seq<DamageOutcome>, effects: seq<StatusEffectId>,
      source: EntityId)
    ensures forall r :: r in Statuses(outcomes, effects, source) ==> r.StatusApplied?
  {
    if outcomes != [] {
      StatusesAreNoAnswer(outcomes[1..], effects, source);
      EffectsAreNoAnswer(outcomes[0].target, effects, source);
    }
  }

  /** An intent for a weapon on the table is answered once, by that weapon; any other is not answered. */
  lemma IntentIsAnswered(env: Env, t: Tally, intent: FireIntent)
    ensures var found := Lookup(t.table, intent.entity, intent.weapon);
            FireAnswers(NewResults(env, t, intent)) ==
            if found.Some? then [FireWeapon(found.value.definition, found.value.state).1] else []
  {
    var found := Lookup(t.table, intent.entity, intent.weapon);
    if found.Some? {
      var results := NewResults(env, t, intent);
      var outcome := FireWeapon(found.value.definition, found.value.state).1;
      if outcome.WeaponFired? && !found.value.delivery.ProjectileDelivery? {
        var outcomes := Volley(env, t, intent, found.value.delivery).outcomes;
        DamageIsNoAnswer(outcomes);
        StatusesAreNoAnswer(outcomes, intent.appliesStatus, intent.entity);
      }
      assert results == [Fired(outcome)] + results[1..];
      NoAnswersAmong(results[1..]);
    }
  }

  /** The answers to the intents that name a weapon, taken from what those intents add to the results. */
  ghost function AnswersTo(env: Env, t: Tally, intents: seq<FireIntent>, e: EntityId, id: WeaponId): seq<FireOutcome>
    decreases intents
  {
    if intents == [] then []
    else
      (if Names(intents[0], e, id) then FireAnswers(NewResults(env, t, intents[0])) else [])
      + AnswersTo(env, FireOne(env, t, intents[0]), intents[1..], e, id)
  }

  lemma FireOneOnTable(env: Env, t: Tally, intent: FireIntent, e: EntityId, id: WeaponId)
    ensures var found := Lookup(t.table, e, id);
            Lookup(FireOne(env, t, intent).table, e, id) ==
            if found.Some? && Names(intent, e, id)
            then Some(found.value.(state := FireWeapon(found.value.definition, found.value.state).0)) else found
  {
    var found := Lookup(t.table, intent.entity, intent.weapon);
    LookupIsKeyed(t.table, intent.entity, intent.weapon);
    if found.Some? {
      var w := found.value;
      LookupPut(t.table, w.(state := FireWeapon(w.definition, w.state).0), e, id);
    }
  }

  /** The weapon and its answers after its trigger was pulled `n` times. */
  function AfterPulls(w: EquippedWeapon, n: nat): (EquippedWeapon, seq<FireOutcome>)
  {
    var (end, outcomes) := Pulled(w.definition, w.state, n);
    (w.(state := end), outcomes)
  }

  lemma PullOnce(w: EquippedWeapon, n: nat)
    requires n > 0
    ensures var (state, outcome) := FireWeapon(w.definition, w.state);
            AfterPulls(w, n) == (AfterPulls(w.(state := state), n - 1).0,
                                 [outcome] + AfterPulls(w.(state := state), n - 1).1)
  {
  }

  /** The first intent, as far as one weapon is concerned. */
  lemma FirstPull(env: Env, t: Tally, intents: seq<FireIntent>, e: EntityId, id: WeaponId) returns (next: Tally)
    requires intents != [] && Lookup(t.table, e, id).Some?
    ensures FireAll(env, t, intents) == FireAll(env, next, intents[1..])
    ensures var w, named := Lookup(t.table, e, id).value, Names(intents[0], e, id);
            var (state, outcome) := FireWeapon(w.definition, w.state);
            && Lookup(next.table, e, id) == Some(if named then w.(state := state) else w)
            && AnswersTo(env, t, intents, e, id) ==
               (if named then [outcome] else []) + AnswersTo(env, next, intents[1..], e, id)
  {
    next := FireOne(env, t, intents[0]);
    FireOneOnTable(env, t, intents[0], e, id);
    IntentIsAnswered(env, t, intents[0]);
  }

  /** Over the intents of a tick each weapon is pulled as often as it is named, and answers accordingly. */
  lemma {:induction false} FireAllPulls(env: Env, t: Tally, intents: seq<FireIntent>, e: EntityId, id: WeaponId)
    requires Lookup(t.table, e, id).Some?
    ensures var pulled := AfterPulls(Lookup(t.table, e, id).value, Pulls(intents, e, id));
            && Lookup(FireAll(env, t, intents).table, e, id) == Some(pulled.0)
            && AnswersTo(env, t, intents, e, id) == pulled.1
    decreases intents
  {
    if intents != [] {
      var next := FirstPull(env, t, intents, e, id);
      FireAllPulls(env, next, intents[1..], e, id);
      if Names(intents[0], e, id) {
        PullOnce(Lookup(t.table, e, id).value, Pulls(intents, e, id));
      } else {
        assert AnswersTo(env, t, intents, e, id) == [] + AnswersTo(env, next, intents[1..], e, id);
      }
    }
  }

  lemma {:induction false} InsertPulls(x: FireIntent, s: seq<FireIntent>, e: EntityId, id: WeaponId)
    ensures Pulls(Insert(x, s, IntentLeq), e, id) == Pulls(s, e, id) + if Names(x, e, id) then 1 else 0
  {
    if s == [] || IntentLeq(x, s[0]) {
      assert ([x] + s)[1..] == s;
    } else {
      InsertPulls(x, s[1..], e, id);
    }
  }

  lemma {:induction false} SortPulls(s: seq<FireIntent>, e: EntityId, id: WeaponId)
    ensures Pulls(SortBy(s, IntentLeq), e, id) == Pulls(s, e, id)
  {
    if s != [] {
      SortPulls(s[1..], e, id);
      InsertPulls(s[0], SortBy(s[1..], IntentLeq), e, id);
    }
  }

  /** What the intents of a tick are answered by a weapon. */
  ghost function TickAnswers(s: Sim, input: TickInput, e: EntityId, id: WeaponId): seq<FireOutcome>
  {
    AnswersTo(input.env, StartOf(s.state, s.vitals, s.cursor), SortBy(input.intents, IntentLeq), e, id)
  }

  /** A weapon after a tick in which its trigger was pulled `n` times, and its answers. */
  function Ticked(w: EquippedWeapon, n: nat): (EquippedWeapon, seq<FireOutcome>)
  {
    AfterPulls(Cooled(w), n)
  }

  /**
   A tick drives every weapon it holds: its timers run down by one tick, then its trigger is pulled
   once for each intent that names it, and the answers are those the intents report. No weapon
   appears, disappears or is exchanged.
   */
  lemma TickDrivesWeapons(s: Sim, input: TickInput, e: EntityId, id: WeaponId)
    ensures var before, after := Held(s.state, e, id), Held(After(s, input).state, e, id);
            && (before.None? <==> after.None?)
            && (before.Some? ==>
                  && after == Some(Ticked(before.value, Pulls(input.intents, e, id)).0)
                  && TickAnswers(s, input, e, id) == Ticked(before.value, Pulls(input.intents, e, id)).1)
  {
    var table, start := TableOf(s.state), StartOf(s.state, s.vitals, s.cursor);
    var intents := SortBy(input.intents, IntentLeq);
    var t := FirePhase(input.env, s.vitals, s.state, s.cursor, input.intents);
    assert t == FireAll(input.env, start, intents);
    PutAllUnique([], SortBy(s.state.weapons, WeaponLeq));
    CoolAllUnique(table);
    FireAllUnique(input.env, start, intents);
    LookupCool(table, e, id);
    SortPulls(input.intents, e, id);
    var next := After(s, input).state;
    HeldNextTick(t.table, next.projectiles, next.nextProjectileId, e, id);
    if Held(s.state, e, id).Some? {
      FireAllPulls(input.env, start, intents, e, id);
    } else {
      NeverOnTable(input.env, start, intents, e, id);
    }
  }

  lemma {:induction false} NeverOnTable(env: Env, t: Tally, intents: seq<FireIntent>, e: EntityId, id: WeaponId)
    requires Lookup(t.table, e, id).None?
    ensures Lookup(FireAll(env, t, intents).table, e, id).None?
    decreases intents
  {
    if intents != [] {
      FireOneOnTable(env, t, intents[0], e, id);
      NeverOnTable(env, FireOne(env, t, intents[0]), intents[1..], e, id);
    }
  }

  // ----- runs -----

  /** The shots that the intents of a tick report for a weapon. */
  ghost function ShotsIn(s: Sim, input: TickInput, e: EntityId, id: WeaponId): nat
  {
    ShotsAmong(TickAnswers(s, input, e, id))
  }

  /** The state of a run before its tick `i`. */
  ghost function Reached(s: Sim, inputs: seq<TickInput>, i: nat): Sim
    requires i <= |inputs|
  {
    Run(s, inputs[..i])
  }

  /** The shots of a weapon that tick `i` of a run reports. */
  ghost function ShotsAt(s: Sim, inputs: seq<TickInput>, i: nat, e: EntityId, id: WeaponId): nat
    requires i < |inputs|
  {
    ShotsIn(Reached(s, inputs, i), inputs[i], e, id)
  }

  ghost function ShotsOver(s: Sim, inputs: seq<TickInput>, e: EntityId, id: WeaponId): nat
    decreases inputs
  {
    if inputs == [] then 0 else ShotsIn(s, inputs[0], e, id) + ShotsOver(After(s, inputs[0]), inputs[1..], e, id)
  }

  /** What one tick does to the rounds and the cooldown of a weapon. */
  lemma TickIsPaidFor(s: Sim, input: TickInput, e: EntityId, id: WeaponId)
    requires Held(s.state, e, id).Some?
    ensures var w, shots := Held(s.state, e, id).value, ShotsIn(s, input, e, id);
            && Held(After(s, input).state, e, id).Some?
            && var v := Held(After(s, input).state, e, id).value;
               && SameArm(v, w) && Rounds(v.state) + shots == Rounds(w.state)
               && (shots == 0 ==> v.state == AdvanceWeapon(w.definition, w.state, 1).0)
               && (shots > 0 ==> w.state.cooldownRemaining <= 1 && w.state.reloadRemaining <= 1
                                 && v.state.cooldownRemaining == w.definition.cooldownTicks)
               && (shots > 1 ==> w.definition.cooldownTicks <= 0)
  {
    var w := Held(s.state, e, id).value;
    var cooled := AdvanceWeapon(w.definition, w.state, 1).0;
    TickDrivesWeapons(s, input, e, id);
    PullsArePaidFor(w.definition, cooled, Pulls(input.intents, e, id));
    AdvancingKeepsRounds(w.definition, w.state, 1);
    FiresAfter(w.definition, w.state, 1);
  }

  /**
   Over any run a weapon stays the same weapon, and its rounds, chambered or being loaded, fall by
   exactly the number of shots that its intents report.
   */
  lemma {:induction false} RunSpendsRounds(s: Sim, inputs: seq<TickInput>, e: EntityId, id: WeaponId)
    requires Held(s.state, e, id).Some?
    ensures Held(Run(s, inputs).state, e, id).Some?
    ensures var before, after := Held(s.state, e, id).value, Held(Run(s, inputs).state, e, id).value;
            SameArm(after, before) && Rounds(after.state) + ShotsOver(s, inputs, e, id) == Rounds(before.state)
    decreases inputs
  {
    if inputs != [] {
      TickIsPaidFor(s, inputs[0], e, id);
      RunSpendsRounds(After(s, inputs[0]), inputs[1..], e, id);
    }
  }

  lemma {:induction false} RunThen(s: Sim, inputs: seq<TickInput>, input: TickInput)
    ensures Run(s, inputs + [input]) == After(Run(s, inputs), input)
    decreases inputs
  {
    if inputs == [] {
      assert inputs + [input] == [input];
      assert Run(After(s, input), [input][1..]) == After(s, input);
    } else {
      assert (inputs + [input])[0] == inputs[0] && (inputs + [input])[1..] == inputs[1..] + [input];
      RunThen(After(s, inputs[0]), inputs[1..], input);
    }
  }

  lemma RunSteps(s: Sim, inputs: seq<TickInput>, i: nat)
    requires i < |inputs|
    ensures Reached(s, inputs, i + 1) == After(Reached(s, inputs, i), inputs[i])
  {
    assert inputs[..i + 1] == inputs[..i] + [inputs[i]];
    RunThen(s, inputs[..i], inputs[i]);
  }

  lemma StillHeld(s: Sim, inputs: seq<TickInput>, i: nat, e: EntityId, id: WeaponId)
    requires i <= |inputs| && Held(s.state, e, id).Some?
    ensures var found := Held(Reached(s, inputs, i).state, e, id);
            found.Some? && SameArm(found.value, Held(s.state, e, id).value)
  {
    RunSpendsRounds(s, inputs[..i], e, id);
  }

  /** How long a weapon has to cool before tick `k` of a run. */
  ghost function CoolingOf(s: Sim, inputs: seq<TickInput>, e: EntityId, id: WeaponId): nat -> int
  {
    (k: nat) => if k <= |inputs| && Held(Reached(s, inputs, k).state, e, id).Some?
                then Held(Reached(s, inputs, k).state, e, id).value.state.cooldownRemaining else 0
  }

  ghost function ShotsOf(s: Sim, inputs: seq<TickInput>, e: EntityId, id: WeaponId): nat -> nat
  {
    (k: nat) => if k < |inputs| then ShotsAt(s, inputs, k, e, id) else 0
  }

  /** A weapon shoots only when cool; a shot leaves the whole cooldown, a tick without one takes a tick off it. */
  ghost predicate Cools(cooling: nat -> int, shots: nat -> nat, cooldown: int, k: nat)
  {
    && (shots(k) > 0 ==> cooling(k) <= 1 && cooling(k + 1) >= cooldown)
    && (shots(k) > 1 ==> cooldown <= 0)
    && (shots(k) == 0 ==> cooling(k + 1) >= cooling(k) - 1)
  }

  /** What is left of the cooldown when no other shot came since the one at `i`. */
  lemma {:induction false} CooldownLeft(cooling: nat -> int, shots: nat -> nat, cooldown: int, i: nat, j: nat)
    requires i < j && shots(i) > 0 && forall k: nat :: i < k < j ==> shots(k) == 0
    requires forall k: nat :: k < j ==> Cools(cooling, shots, cooldown, k)
    ensures cooling(j) >= cooldown - (j - i - 1)
    decreases j
  {
    assert Cools(cooling, shots, cooldown, j - 1);
    if i < j - 1 {
      CooldownLeft(cooling, shots, cooldown, i, j - 1);
    }
  }

  lemma {:induction false} CoolingKeepsApart(cooling: nat -> int, shots: nat -> nat, cooldown: int, i: nat, j: nat)
    requires i < j && shots(i) > 0 && shots(j) > 0
    requires forall k: nat :: k <= j ==> Cools(cooling, shots, cooldown, k)
    ensures j - i >= cooldown
    decreases j - i
  {
    if k: nat :| i < k < j && shots(k) > 0 {
      CoolingKeepsApart(cooling, shots, cooldown, k, j);
    } else {
      CooldownLeft(cooling, shots, cooldown, i, j);
      assert Cools(cooling, shots, cooldown, j);
    }
  }

  lemma TickCools(s: Sim, inputs: seq<TickInput>, e: EntityId, id: WeaponId, k: nat)
    requires Held(s.state, e, id).Some? && k < |inputs|
    ensures Cools(CoolingOf(s, inputs, e, id), ShotsOf(s, inputs, e, id),
                  Held(s.state, e, id).value.definition.cooldownTicks, k)
  {
    StillHeld(s, inputs, k, e, id);
    StillHeld(s, inputs, k + 1, e, id);
    RunSteps(s, inputs, k);
    var w := Held(Reached(s, inputs, k).state, e, id).value;
    TickIsPaidFor(Reached(s, inputs, k), inputs[k], e, id);
    FiresAfter(w.definition, w.state, 1);
  }

  /**
   Over any run the shots of one weapon are at least its cooldown apart: ticks with shots are, and
   more than one shot in a tick needs a weapon without cooldown.
   */
  lemma ShotsAreApart(s: Sim, inputs: seq<TickInput>, i: nat, j: nat, e: EntityId, id: WeaponId)
    requires i <= j < |inputs| && Held(s.state, e, id).Some?
    requires ShotsAt(s, inputs, i, e, id) > 0 && ShotsAt(s, inputs, j, e, id) > 0
    ensures i < j ==> j - i >= Held(s.state, e, id).value.definition.cooldownTicks
    ensures ShotsAt(s, inputs, i, e, id) > 1 ==> Held(s.state, e, id).value.definition.cooldownTicks <= 0
  {
    var cooldown := Held(s.state, e, id).value.definition.cooldownTicks;
    var cooling, shots := CoolingOf(s, inputs, e, id), ShotsOf(s, inputs, e, id);
    forall k: nat | k <= j ensures Cools(cooling, shots, cooldown, k) {
      TickCools(s, inputs, e, id, k);
    }
    assert shots(i) == ShotsAt(s, inputs, i, e, id) && shots(j) == ShotsAt(s, inputs, j, e, id);
    assert Cools(cooling, shots, cooldown, i);
    if i < j {
      CoolingKeepsApart(cooling, shots, cooldown, i, j);
    }
  }

  /** No intent of the run names the weapon. */
  ghost predicate Idle(inputs: seq<TickInput>, e: EntityId, id: WeaponId)
  {
    forall input :: input in inputs ==> Pulls(input.intents, e, id) == 0
  }

  /** The weapon after waiting. */
  function Waited(w: EquippedWeapon, ticks: nat): EquippedWeapon
  {
    if ticks == 0 then w else w.(state := AdvanceWeapon(w.definition, w.state, ticks).0)
  }

  lemma FirstIdleTick(s: Sim, inputs: seq<TickInput>, e: EntityId, id: WeaponId) returns (next: Sim)
    requires Held(s.state, e, id).Some? && inputs != [] && Idle(inputs, e, id)
    ensures Run(s, inputs) == Run(next, inputs[1..])
    ensures Held(next.state, e, id) == Some(Waited(Held(s.state, e, id).value, 1))
  {
    assert inputs[0] in inputs;
    next := After(s, inputs[0]);
    TickDrivesWeapons(s, inputs[0], e, id);
  }

  lemma WaitsOn(w: EquippedWeapon, ticks: nat)
    ensures Waited(Waited(w, 1), ticks) == Waited(w, ticks + 1)
    ensures Waited(Waited(w, ticks), 1) == Waited(w, ticks + 1)
  {
    AdvanceComposes(w.definition, w.state, 1, ticks);
    AdvanceComposes(w.definition, w.state, ticks, 1);
  }

  /** A weapon that no intent names only runs down its timers, one tick for each tick of the run. */
  lemma {:induction false} IdleWeaponsOnlyCool(s: Sim, inputs: seq<TickInput>, e: EntityId, id: WeaponId)
    requires Held(s.state, e, id).Some? && Idle(inputs, e, id)
    ensures Held(Run(s, inputs).state, e, id) == Some(Waited(Held(s.state, e, id).value, |inputs|))
    decreases inputs
  {
    if inputs != [] {
      var next := FirstIdleTick(s, inputs, e, id);
      IdleWeaponsOnlyCool(next, inputs[1..], e, id);
      WaitsOn(Held(s.state, e, id).value, |inputs| - 1);
    }
  }

  /**
   The first pull after any idle time is answered as if the weapon had waited alone: it fires exactly
   when reload and cooldown have run out by then and a round is chambered.
   */
  lemma FirstPullIsAnswered(s: Sim, inputs: seq<TickInput>, input: TickInput, e: EntityId, id: WeaponId)
    requires Held(s.state, e, id).Some? && Idle(inputs, e, id) && Pulls(input.intents, e, id) > 0
    ensures var w := Held(s.state, e, id).value;
            var answers := TickAnswers(Run(s, inputs), input, e, id);
            && |answers| == Pulls(input.intents, e, id)
            && answers[0] == FireWeapon(w.definition, AdvanceWeapon(w.definition, w.state, |inputs| + 1).0).1
            && (answers[0].WeaponFired? <==>
                  && w.state.reloadRemaining <= |inputs| + 1 && w.state.cooldownRemaining <= |inputs| + 1
                  && ChamberedAfter(w.state, |inputs| + 1) >= 1)
  {
    var w := Held(s.state, e, id).value;
    IdleWeaponsOnlyCool(s, inputs, e, id);
    TickDrivesWeapons(Run(s, inputs), input, e, id);
    WaitsOn(w, |inputs|);
    var v := Held(Run(s, inputs).state, e, id).value;
    PullsArePaidFor(v.definition, AdvanceWeapon(v.definition, v.state, 1).0, Pulls(input.intents, e, id));
    FiresAfter(w.definition, w.state, |inputs| + 1);
  }
}
