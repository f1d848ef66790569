/**
 The canonical ammunition reserve (packages/simulation/src/ammo.ts), and the bookkeeping of
 a weapon whose reloads are paid out of it.
 */
module Ammo {
  import opened Wrappers
  import opened Sorting
  import opened Text
  import opened Weapon

  type AmmoKind = string

  datatype AmmoStack = AmmoStack(ammoKind: AmmoKind, amount: int)

  type Reserve = seq<AmmoStack>

  predicate StackLeq(a: AmmoStack, b: AmmoStack)
  {
    TextLeq(a.ammoKind, b.ammoKind)
  }

  /** Positive stacks, one per kind, in kind order. */
  ghost predicate Canonical(reserve: Reserve)
  {
    && (forall i :: 0 <= i < |reserve| ==> reserve[i].amount > 0)
    && (forall i, j :: 0 <= i < j < |reserve| ==> TextLess(reserve[i].ammoKind, reserve[j].ammoKind))
  }

  function AmmoAmount(reserve: Reserve, kind: AmmoKind): int
  {
    if reserve == [] then 0
    else if reserve[0].ammoKind == kind then reserve[0].amount
    else AmmoAmount(reserve[1..], kind)
  }

  function OtherKind(kind: AmmoKind): AmmoStack -> bool
  {
    (s: AmmoStack) => s.ammoKind != kind
  }

  function WithStackAmount(reserve: Reserve, kind: AmmoKind, amount: int): Reserve
  {
    var others := Filter(reserve, OtherKind(kind));
    SortBy(if amount > 0 then others + [AmmoStack(kind, amount)] else others, StackLeq)
  }

  function AddAmmo(reserve: Reserve, kind: AmmoKind, amount: real): Reserve
  {
    var added := amount.Floor;
    if added <= 0 then reserve else WithStackAmount(reserve, kind, AmmoAmount(reserve, kind) + added)
  }

  function ConsumeAmmo(reserve: Reserve, kind: AmmoKind, requested: real): (Reserve, int)
  {
    var wanted := requested.Floor;
    if wanted <= 0 then (reserve, 0)
    else
      var held := AmmoAmount(reserve, kind);
      var consumed := MinInt(held, wanted);
      if consumed <= 0 then (reserve, 0) else (WithStackAmount(reserve, kind, held - consumed), consumed)
  }

  // ----- the canonical form -----

  function KindOf(): AmmoStack -> string
  {
    (s: AmmoStack) => s.ammoKind
  }

  ghost predicate DistinctKinds(s: Reserve)
  {
    forall i, j :: 0 <= i < j < |s| ==> s[i].ammoKind != s[j].ammoKind
  }

  lemma {:induction false} AmountIs(s: Reserve, kind: AmmoKind)
    requires DistinctKinds(s)
    ensures forall x :: x in s && x.ammoKind == kind ==> AmmoAmount(s, kind) == x.amount
    ensures (forall x :: x in s ==> x.ammoKind != kind) ==> AmmoAmount(s, kind) == 0
  {
    if s != [] {
      AmountIs(s[1..], kind);
      forall x | x in s[1..] ensures x.ammoKind != s[0].ammoKind {
        var j :| 0 < j < |s| && s[j] == x;
      }
    }
  }

  /** Two lists with distinct kinds and the same stacks hold the same amounts. */
  lemma SameStacksSameAmount(s: Reserve, t: Reserve, kind: AmmoKind)
    requires DistinctKinds(s) && DistinctKinds(t) && forall x :: x in s <==> x in t
    ensures AmmoAmount(s, kind) == AmmoAmount(t, kind)
  {
    AmountIs(s, kind);
    AmountIs(t, kind);
    if x :| x in s && x.ammoKind == kind {
      assert x in t;
    }
  }

  lemma SortedDistinctIsCanonical(s: Reserve)
    requires DistinctKinds(s) && forall x :: x in s ==> x.amount > 0
    ensures Canonical(SortBy(s, StackLeq)) && DistinctKinds(SortBy(s, StackLeq))
    ensures forall x :: x in SortBy(s, StackLeq) <==> x in s
  {
    SortIsStrict(s, KindOf(), StackLeq);
    var t := SortBy(s, StackLeq);
    forall i | 0 <= i < |t| ensures t[i].amount > 0 {
      assert t[i] in s;
    }
    forall i, j | 0 <= i < j < |t| ensures TextLess(t[i].ammoKind, t[j].ammoKind) {
      assert TextLess(KindOf()(t[i]), KindOf()(t[j]));
    }
  }

  /** Setting one stack keeps the reserve canonical and changes that kind alone. */
  lemma StackAmountIsSet(reserve: Reserve, kind: AmmoKind, amount: nat)
    requires Canonical(reserve)
    ensures Canonical(WithStackAmount(reserve, kind, amount))
    ensures forall k :: AmmoAmount(WithStackAmount(reserve, kind, amount),
                                   k) == if k == kind then amount else AmmoAmount(reserve, k)
  {
    var others := Filter(reserve, OtherKind(kind));
    FilterDistinctKeys(reserve, KindOf(), OtherKind(kind));
    var s := if amount > 0 then others + [AmmoStack(kind, amount)] else others;
    forall i, j | 0 <= i < j < |s| ensures s[i].ammoKind != s[j].ammoKind {
      assert s[i] in others;
      assert j < |others| ==> s[j] in others;
    }
    forall x | x in s ensures x.amount > 0 {
      if x in others {
        var i :| 0 <= i < |reserve| && reserve[i] == x;
      }
    }
    SortedDistinctIsCanonical(s);
    var t := SortBy(s, StackLeq);
    forall k ensures AmmoAmount(t, k) == if k == kind then amount else AmmoAmount(reserve, k) {
      SameStacksSameAmount(s, t, k);
      AmountIs(s, k);
      AmountIs(reserve, k);
      if k == kind {
        assert amount > 0 ==> AmmoStack(kind, amount) in s;
      } else if x :| x in reserve && x.ammoKind == k {
        assert x in s;
      } else {
        assert forall x :: x in s ==> x.ammoKind != k;
      }
    }
  }

  /** Canonical reserves that hold the same amounts are the same list. */
  lemma {:induction false} CanonicalIsUnique(a: Reserve, b: Reserve)
    requires Canonical(a) && Canonical(b)
    requires forall k :: AmmoAmount(a, k) == AmmoAmount(b, k)
    ensures a == b
  {
    CanonicalSubset(a, b);
    CanonicalSubset(b, a);
    KeyPreorder(KindOf(), StackLeq);
    assert forall i :: 0 <= i < |a| ==> a[i] in a;
    assert forall i :: 0 <= i < |b| ==> b[i] in b;
    SetsOfDistinct(a, b);
    forall x, y | x in a && y in a && StackLeq(x, y) && StackLeq(y, x) ensures x == y {
      TextTotal(x.ammoKind, y.ammoKind);
      AmountIs(a, x.ammoKind);
    }
    SortedUnique(a, b, StackLeq);
  }

  lemma CanonicalSubset(a: Reserve, b: Reserve)
    requires Canonical(a) && Canonical(b)
    requires forall k :: AmmoAmount(a, k) == AmmoAmount(b, k)
    ensures forall x :: x in a ==> x in b
  {
    forall x | x in a ensures x in b {
      AmountIs(a, x.ammoKind);
      AmountIs(b, x.ammoKind);
      assert x.amount > 0;
      assert AmmoAmount(b, x.ammoKind) == x.amount;
      var y :| y in b && y.ammoKind == x.ammoKind;
    }
  }

  lemma SetsOfDistinct(a: Reserve, b: Reserve)
    requires DistinctKinds(a) && DistinctKinds(b) && forall x :: x in a <==> x in b
    ensures multiset(a) == multiset(b)
  {
    forall x ensures multiset(a)[x] == multiset(b)[x] {
      DistinctCount(a, x);
      DistinctCount(b, x);
      assert x in a <==> x in multiset(a);
      assert x in b <==> x in multiset(b);
    }
  }

  lemma ConsumeIsExact(reserve: Reserve, kind: AmmoKind, requested: real)
    requires Canonical(reserve)
    ensures var (left, consumed) := ConsumeAmmo(reserve, kind, requested);
            && Canonical(left)
            && consumed == MaxInt(0, MinInt(AmmoAmount(reserve, kind), requested.Floor))
            && forall k :: AmmoAmount(left, k) == AmmoAmount(reserve, k) - if k == kind then consumed else 0
  {
    var held := AmmoAmount(reserve, kind);
    AmountIsNat(reserve, kind);
    var consumed := MinInt(held, requested.Floor);
    if requested.Floor > 0 && consumed > 0 {
      StackAmountIsSet(reserve, kind, held - consumed);
    }
  }

  lemma {:induction false} AmountIsNat(reserve: Reserve, kind: AmmoKind)
    requires forall i :: 0 <= i < |reserve| ==> reserve[i].amount > 0
    ensures AmmoAmount(reserve, kind) >= 0
  {
    if reserve != [] {
      AmountIsNat(reserve[1..], kind);
    }
  }

  /** Adding whole rounds adds exactly those, and a fraction of a round adds nothing. */
  lemma AddIsExact(reserve: Reserve, kind: AmmoKind, amount: real)
    requires Canonical(reserve)
    ensures Canonical(AddAmmo(reserve, kind, amount))
    ensures forall k :: AmmoAmount(AddAmmo(reserve, kind, amount), k) ==
                        AmmoAmount(reserve, k) + if k == kind then MaxInt(0, amount.Floor) else 0
  {
    AmountIsNat(reserve, kind);
    if amount.Floor > 0 {
      StackAmountIsSet(reserve, kind, AmmoAmount(reserve, kind) + amount.Floor);
    }
  }

  /** Adding and then consuming the same rounds restores the reserve exactly. */
  lemma AddThenConsume(reserve: Reserve, kind: AmmoKind, rounds: nat)
    requires Canonical(reserve)
    ensures ConsumeAmmo(AddAmmo(reserve, kind, rounds as real), kind, rounds as real) == (reserve, rounds)
  {
    AmountIsNat(reserve, kind);
    if rounds > 0 {
      var more := AddAmmo(reserve, kind, rounds as real);
      StackAmountIsSet(reserve, kind, AmmoAmount(reserve, kind) + rounds);
      ConsumeIsExact(more, kind, rounds as real);
      CanonicalIsUnique(ConsumeAmmo(more, kind, rounds as real).0, reserve);
    }
  }

  // ----- a weapon fed from the reserve -----

  datatype Step = Fire | Tick(ticks: nat) | Reload

  datatype Rig = Rig(weapon: WeaponState, reserve: Reserve, shots: nat, elapsed: nat)

  /** Drive the weapon one step; a reload is paid with exactly the rounds it reports. */
  function Drive(definition: WeaponDefinition, kind: AmmoKind, rig: Rig, step: Step): Rig
  {
    match step
    case Fire =>
      var (weapon, outcome) := FireWeapon(definition, rig.weapon);
      rig.(weapon := weapon, shots := rig.shots + if outcome.WeaponFired? then 1 else 0)
    case Tick(ticks) =>
      rig.(weapon := AdvanceWeapon(definition, rig.weapon, ticks).0, elapsed := rig.elapsed + ticks)
    case Reload =>
      var result := BeginReload(definition, rig.weapon, AmmoAmount(rig.reserve, kind) as real);
      rig.(weapon := result.state, reserve := ConsumeAmmo(rig.reserve, kind, result.ammoLoaded as real).0)
  }

  function DriveAll(definition: WeaponDefinition, kind: AmmoKind, rig: Rig, steps: seq<Step>): Rig
    decreases steps
  {
    if steps == [] then rig else DriveAll(definition, kind, Drive(definition, kind, rig, steps[0]), steps[1..])
  }

  /** Every round ever owned: in reserve, chambered, being loaded, or fired. */
  function Rounds(kind: AmmoKind, rig: Rig): int
  {
    AmmoAmount(rig.reserve, kind) + rig.weapon.ammoInMagazine + rig.weapon.reloadAmount + rig.shots
  }

  ghost predicate Sound(definition: WeaponDefinition, rig: Rig)
  {
    var w := rig.weapon;
    && Canonical(rig.reserve)
    && 0 <= w.ammoInMagazine && 0 <= w.reloadAmount
    && w.ammoInMagazine + w.reloadAmount <= definition.magazineSize
    && 0 <= w.cooldownRemaining <= definition.cooldownTicks
    && 0 <= w.reloadRemaining <= definition.reloadTicks
    && (w.reloadRemaining == 0 ==> w.reloadAmount == 0)
    && (rig.shots == 0 ==> w.cooldownRemaining == 0)
    && (rig.shots > 0 ==> rig.shots * definition.cooldownTicks - w.cooldownRemaining <= rig.elapsed)
  }

  lemma DriveKeeps(definition: WeaponDefinition, kind: AmmoKind, rig: Rig, step: Step)
    requires definition.Structural() && Sound(definition, rig)
    ensures Sound(definition, Drive(definition, kind, rig, step))
    ensures Rounds(kind, Drive(definition, kind, rig, step)) == Rounds(kind, rig)
    ensures forall k :: k != kind ==>
              AmmoAmount(Drive(definition, kind, rig, step).reserve, k) == AmmoAmount(rig.reserve, k)
  {
    match step
    case Fire => FireKeeps(definition, kind, rig);
    case Tick(ticks) => TickKeeps(definition, kind, rig, ticks);
    case Reload => ReloadKeeps(definition, kind, rig);
  }

  lemma FireKeeps(definition: WeaponDefinition, kind: AmmoKind, rig: Rig)
    requires definition.Structural() && Sound(definition, rig)
    ensures var next := Drive(definition, kind, rig, Fire);
            && Sound(definition, next) && Rounds(kind, next) == Rounds(kind, rig) && next.reserve == rig.reserve
  {
    assert (rig.shots + 1) * definition.cooldownTicks ==
           rig.shots * definition.cooldownTicks + definition.cooldownTicks;
  }

  lemma TickKeeps(definition: WeaponDefinition, kind: AmmoKind, rig: Rig, ticks: nat)
    requires definition.Structural() && Sound(definition, rig)
    ensures var next := Drive(definition, kind, rig, Tick(ticks));
            && Sound(definition, next) && Rounds(kind, next) == Rounds(kind, rig) && next.reserve == rig.reserve
  {
  }

  lemma ReloadKeeps(definition: WeaponDefinition, kind: AmmoKind, rig: Rig)
    requires definition.Structural() && Sound(definition, rig)
    ensures var next := Drive(definition, kind, rig, Reload);
            && Sound(definition, next) && Rounds(kind, next) == Rounds(kind, rig)
            && forall k :: k != kind ==> AmmoAmount(next.reserve, k) == AmmoAmount(rig.reserve, k)
  {
    var result := BeginReload(definition, rig.weapon, AmmoAmount(rig.reserve, kind) as real);
    ConsumeIsExact(rig.reserve, kind, result.ammoLoaded as real);
    AmountIsNat(rig.reserve, kind);
  }

  /**
   Over any run of fire, tick and reload steps from a sound start: no round of the fed
   kind is created or lost, other kinds are untouched, the magazine never overfills even
   counting rounds in flight, and shots are at least a cooldown apart.
   */
  lemma {:induction false} AmmoIsConserved(definition: WeaponDefinition, kind: AmmoKind, rig: Rig, steps: seq<Step>)
    requires definition.Structural() && Sound(definition, rig)
    ensures var end := DriveAll(definition, kind, rig, steps);
            && Sound(definition, end)
            && Rounds(kind, end) == Rounds(kind, rig)
            && (forall k :: k != kind ==> AmmoAmount(end.reserve, k) == AmmoAmount(rig.reserve, k))
            && (end.shots > 0 ==> (end.shots - 1) * definition.cooldownTicks <= end.elapsed)
    decreases steps
  {
    if steps == [] {
      assert (rig.shots - 1) * definition.cooldownTicks ==
             rig.shots * definition.cooldownTicks - definition.cooldownTicks;
    } else {
      DriveKeeps(definition, kind, rig, steps[0]);
      AmmoIsConserved(definition, kind, Drive(definition, kind, rig, steps[0]), steps[1..]);
    }
  }

  /** A weapon fresh from its definition: a full magazine, no shot fired and no time passed. */
  function FreshRig(definition: WeaponDefinition, reserve: Reserve): Rig
  {
    Rig(InitialWeaponState(definition), reserve, 0, 0)
  }

  /**
   From a full magazine: what is left in reserve, in the magazine and in flight, plus the shots
   fired, is the reserve and one magazine; the magazine never overfills; and n shots take at
   least n - 1 cooldowns.
   */
  lemma FullMagazineIsAccountedFor(definition: WeaponDefinition, kind: AmmoKind, reserve: Reserve, steps: seq<Step>)
    requires definition.Structural() && Canonical(reserve)
    ensures var end := DriveAll(definition, kind, FreshRig(definition, reserve), steps);
            && Rounds(kind, end) == AmmoAmount(reserve, kind) + definition.magazineSize
            && 0 <= end.weapon.ammoInMagazine + end.weapon.reloadAmount <= definition.magazineSize
            && (end.shots > 0 ==> (end.shots - 1) * definition.cooldownTicks <= end.elapsed)
            && (forall k :: k != kind ==> AmmoAmount(end.reserve, k) == AmmoAmount(reserve, k))
  {
    FreshRigIsSound(definition, reserve);
    AmmoIsConserved(definition, kind, FreshRig(definition, reserve), steps);
  }

  lemma FreshRigIsSound(definition: WeaponDefinition, reserve: Reserve)
    requires definition.Structural() && Canonical(reserve)
    ensures Sound(definition, FreshRig(definition, reserve))
  {
    assert 0 * definition.cooldownTicks == 0;
  }

  // ----- what a magazine gives -----

  /** Pull the trigger `shots` times, a cooldown apart. */
  function Burst(cooldown: nat, shots: nat): seq<Step>
  {
    if shots == 0 then [] else [Fire, Tick(cooldown)] + Burst(cooldown, shots - 1)
  }

  lemma DriveTwo(definition: WeaponDefinition, kind: AmmoKind, rig: Rig, a: Step, b: Step, rest: seq<Step>)
    ensures DriveAll(definition, kind, rig, [a, b] + rest) ==
            DriveAll(definition, kind, Drive(definition, kind, Drive(definition, kind, rig, a), b), rest)
  {
    assert ([a, b] + rest)[1..] == [b] + rest && ([b] + rest)[1..] == rest;
  }

  /** Triggers a cooldown apart each fire while rounds last, and then none does. */
  lemma {:induction false} BurstFires(definition: WeaponDefinition, kind: AmmoKind, rig: Rig, shots: nat)
    requires definition.Structural() && rig.weapon == WeaponState(rig.weapon.ammoInMagazine, 0, 0, 0)
    requires rig.weapon.ammoInMagazine >= 0
    ensures var fired := MinInt(shots, rig.weapon.ammoInMagazine);
            var end := DriveAll(definition, kind, rig, Burst(definition.cooldownTicks, shots));
            && end.weapon == WeaponState(rig.weapon.ammoInMagazine - fired, 0, 0, 0)
            && end.shots == rig.shots + fired && end.reserve == rig.reserve
    decreases shots
  {
    if shots > 0 {
      var wait := Tick(definition.cooldownTicks);
      var next := Drive(definition, kind, Drive(definition, kind, rig, Fire), wait);
      DriveTwo(definition, kind, rig, Fire, wait, Burst(definition.cooldownTicks, shots - 1));
      BurstFires(definition, kind, next, shots - 1);
    }
  }

  /**
   From a full magazine, triggers a cooldown apart fire exactly as many shots as the magazine holds;
   the next one reports an empty magazine, and one before then fires.
   */
  lemma MagazineIsEmptied(definition: WeaponDefinition, kind: AmmoKind, reserve: Reserve, shots: nat)
    requires definition.Structural()
    ensures var end := DriveAll(definition, kind, FreshRig(definition, reserve),
                                Burst(definition.cooldownTicks, shots));
            && end.shots == MinInt(shots, definition.magazineSize) && end.reserve == reserve
            && FireWeapon(definition, end.weapon).1 ==
               if shots >= definition.magazineSize then WeaponOutOfAmmo(definition.id)
               else WeaponFired(definition.id, definition.damage, definition.magazineSize - shots - 1)
  {
    BurstFires(definition, kind, FreshRig(definition, reserve), shots);
  }

  /**
   A reload that may start fills the magazine as far as the reserve goes, after its reload time and
   not before, and the reserve pays for exactly the rounds that arrive.
   */
  lemma ReloadRefills(definition: WeaponDefinition, kind: AmmoKind, rig: Rig, ticks: nat)
    requires definition.Structural() && Sound(definition, rig)
    requires MayReload(definition, rig.weapon, AmmoAmount(rig.reserve, kind) as real)
    ensures var held, end := AmmoAmount(rig.reserve, kind),
                             Drive(definition, kind, Drive(definition, kind, rig, Reload), Tick(ticks));
            var loaded := MinInt(held, definition.magazineSize - rig.weapon.ammoInMagazine);
            && AmmoAmount(end.reserve, kind) == held - loaded
            && end.weapon.ammoInMagazine ==
               rig.weapon.ammoInMagazine + (if ticks >= definition.reloadTicks then loaded else 0)
            && (FireWeapon(definition, end.weapon).1.WeaponReloading? <==> ticks < definition.reloadTicks)
  {
    var held := AmmoAmount(rig.reserve, kind);
    var result := BeginReload(definition, rig.weapon, held as real);
    ReloadTakesTheMost(definition, rig.weapon, held as real);
    ConsumeIsExact(rig.reserve, kind, result.ammoLoaded as real);
    FiresAfter(definition, result.state, ticks);
  }
}
