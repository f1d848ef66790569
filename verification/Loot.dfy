/** Weighted rolls and pickup ranking (packages/simulation/src/loot.ts). */
module Loot {
  import opened Wrappers
  import opened Sorting
  import opened Geometry
  import opened Rng

  // ----- the weighted roll -----

  datatype LootEntry = LootEntry(item: string, weight: real, quantity: int)

  datatype MadeTable = Table(entries: seq<LootEntry>) | BadWeight(index: nat) | BadQuantity(index: nat)

  predicate Structural(entry: LootEntry)
  {
    entry.weight >= 0.0 && entry.quantity >= 1
  }

  /** The constructor reports the first entry that is not structural. */
  method MakeRuntimeLootTable(entries: seq<LootEntry>) returns (made: MadeTable)
    ensures made.Table? <==> forall i :: 0 <= i < |entries| ==> Structural(entries[i])
    ensures made.Table? ==> made.entries == entries
    ensures !made.Table? ==>
              && made.index < |entries| && (forall i :: 0 <= i < made.index ==> Structural(entries[i]))
              && (made.BadWeight? <==> entries[made.index].weight < 0.0)
              && (made.BadQuantity? ==> entries[made.index].quantity < 1)
  {
    var i := 0;
    while i < |entries|
      invariant 0 <= i <= |entries|
      invariant forall j :: 0 <= j < i ==> Structural(entries[j])
    {
      if entries[i].weight < 0.0 {
        return BadWeight(i);
      }
      if entries[i].quantity < 1 {
        return BadQuantity(i);
      }
      i := i + 1;
    }
    return Table(entries);
  }

  function Weight(entry: LootEntry): real
  {
    Max(0.0, entry.weight)
  }

  /** The weight of the first `n` entries. */
  function Before(entries: seq<LootEntry>, n: nat): real
    requires n <= |entries|
  {
    if n == 0 then 0.0 else Before(entries, n - 1) + Weight(entries[n - 1])
  }

  function Total(entries: seq<LootEntry>): real
  {
    Before(entries, |entries|)
  }

  /** The target falls in the entry's own stretch of [0, total). */
  predicate Wins(entries: seq<LootEntry>, i: int, target: real)
  {
    0 <= i < |entries| && Before(entries, i) <= target < Before(entries, i + 1)
  }

  /** The last entry that can be rolled at all: the owner of targets past the end. */
  function LastRollable(entries: seq<LootEntry>): Option<LootEntry>
  {
    if entries == [] then None
    else if entries[|entries| - 1].weight > 0.0 then Some(entries[|entries| - 1])
    else LastRollable(entries[..|entries| - 1])
  }

  /** Where a unit draw lands on [0, total). */
  function Target(u: real, total: real): real
  {
    u * total
  }

  ghost predicate Picks(entries: seq<LootEntry>, target: real, picked: LootEntry)
  {
    exists i :: Wins(entries, i, target) && picked == entries[i]
  }

  method TotalWeight(entries: seq<LootEntry>) returns (total: real)
    ensures total == Total(entries)
  {
    total := 0.0;
    var i := 0;
    while i < |entries|
      invariant 0 <= i <= |entries| && total == Before(entries, i)
    {
      total := total + Weight(entries[i]);
      i := i + 1;
    }
  }

  method ScanEntries(entries: seq<LootEntry>, target: real) returns (r: Option<LootEntry>)
    requires target >= 0.0
    ensures forall i :: Wins(entries, i, target) ==> r == Some(entries[i])
    ensures target >= Total(entries) ==> r == LastRollable(entries)
  {
    var cursor := 0.0;
    r := None;
    var i := 0;
    while i < |entries|
      invariant 0 <= i <= |entries| && cursor == Before(entries, i) <= target
      invariant r == LastRollable(entries[..i])
      invariant forall j :: 0 <= j < i ==> !Wins(entries, j, target)
    {
      assert entries[..i + 1][..i] == entries[..i];
      var weight := Weight(entries[i]);
      if weight > 0.0 {
        r := Some(entries[i]);
        cursor := cursor + weight;
        if target < cursor {
          forall j | Wins(entries, j, target) ensures j == i {
            WinnerIsUnique(entries, i, j, target);
          }
          BeforeMonotone(entries, i + 1, |entries|);
          return;
        }
      }
      i := i + 1;
    }
    assert entries[..i] == entries;
  }

  /** One draw, then the scan. */
  method RollLootTable(entries: seq<LootEntry>, rng: SeededRng) returns (r: Option<LootEntry>)
    requires Unsigned32(rng.draws)
    modifies rng
    ensures Total(entries) <= 0.0 ==> r == None && rng.cursor == old(rng.cursor)
    ensures Total(entries) > 0.0 ==> rng.cursor == old(rng.cursor) + 1
    ensures Total(entries) > 0.0 ==>
              r.Some? && Picks(entries, Target(FloatAt(rng.draws, old(rng.cursor)), Total(entries)), r.value)
  {
    var total := TotalWeight(entries);
    if total <= 0.0 {
      return None;
    }
    FloatInUnit(rng.draws, rng.cursor);
    var u := rng.NextFloat();
    var target := Target(u, total);
    TargetInRange(u, total);
    ghost var i := SomeoneWins(entries, target, |entries|);
    r := ScanEntries(entries, target);
  }

  lemma TargetInRange(u: real, total: real)
    requires 0.0 <= u < 1.0 && total > 0.0
    ensures 0.0 <= Target(u, total) < total
  {
    var rest := (1.0 - u) * total;
    assert rest > 0.0;
    assert Target(u, total) + rest == total;
  }

  lemma {:induction false} BeforeMonotone(entries: seq<LootEntry>, i: nat, j: nat)
    requires i <= j <= |entries|
    ensures Before(entries, i) <= Before(entries, j)
    decreases j
  {
    if i < j {
      BeforeMonotone(entries, i, j - 1);
    }
  }

  /** The stretches are disjoint. */
  lemma WinnerIsUnique(entries: seq<LootEntry>, i: int, j: int, target: real)
    requires Wins(entries, i, target) && Wins(entries, j, target)
    ensures i == j
  {
    if i < j {
      BeforeMonotone(entries, i + 1, j);
    } else if j < i {
      BeforeMonotone(entries, j + 1, i);
    }
  }

  /** The stretches cover everything below the total, so the fallback past the end is never needed. */
  lemma {:induction false} SomeoneWins(entries: seq<LootEntry>, target: real, n: nat) returns (i: nat)
    requires n <= |entries| && 0.0 <= target < Before(entries, n)
    ensures i < n && Wins(entries, i, target)
  {
    if target < Before(entries, n - 1) {
      i := SomeoneWins(entries, target, n - 1);
    } else {
      i := n - 1;
    }
  }

  /**
   The winning stretches tile [0, total): every target has exactly one winner, each stretch is
   as long as its weight, and an entry without weight never wins.
   */
  lemma StretchesTile(entries: seq<LootEntry>, target: real)
    ensures 0.0 <= target < Total(entries) <==> exists i :: Wins(entries, i, target)
    ensures forall i, j :: Wins(entries, i, target) && Wins(entries, j, target) ==> i == j
    ensures forall i :: 0 <= i < |entries| ==>
              Before(entries, i + 1) - Before(entries, i) == Max(entries[i].weight, 0.0)
    ensures forall i :: Wins(entries, i, target) ==> entries[i].weight > 0.0
  {
    if 0.0 <= target < Total(entries) {
      var i := SomeoneWins(entries, target, |entries|);
    }
    forall i | Wins(entries, i, target) ensures 0.0 <= target < Total(entries) {
      BeforeMonotone(entries, 0, i);
      BeforeMonotone(entries, i + 1, |entries|);
    }
    forall i, j | Wins(entries, i, target) && Wins(entries, j, target) ensures i == j {
      WinnerIsUnique(entries, i, j, target);
    }
  }

  lemma DrawScales(d: real, w: real, total: real, bound: real)
    requires w > 0.0
    ensures bound <= d / w * total <==> bound * w <= d * total
  {
    var u := d / w;
    assert u * w == d;
    var left := u * total - bound;
    assert left * w == d * total - bound * w;
    if left >= 0.0 {
      assert left * w >= 0.0;
    } else {
      assert (-left) * w > 0.0;
    }
  }

  /** Among the 2^32 draws an entry wins those in its share of them. */
  lemma DrawsAreProportional(entries: seq<LootEntry>, draws: Draws, at: nat, i: nat)
    requires i < |entries|
    ensures var scale := 4294967296.0;
            Wins(entries, i, Target(FloatAt(draws, at), Total(entries))) <==>
            Before(entries, i) * scale <= draws(at) as real * Total(entries) < Before(entries, i + 1) * scale
  {
    DrawScales(draws(at) as real, 4294967296.0, Total(entries), Before(entries, i));
    DrawScales(draws(at) as real, 4294967296.0, Total(entries), Before(entries, i + 1));
  }

  // ----- pickups -----

  datatype PickupSource = PickupSource(id: int, position: Vec2, distance: Option<real>, radius: Option<real>)

  datatype PickupCandidate = PickupCandidate(id: int, distance: real)

  /** The larger of the query radius and the pickup's own. */
  function EffectiveRadius(queryRadius: real, pickup: PickupSource): real
  {
    var base := Max(0.0, queryRadius);
    Max(base, if pickup.radius.Some? then Max(0.0, pickup.radius.value) else base)
  }

  function ReachOf(m: Maths, seeker: Vec2, pickup: PickupSource): real
  {
    if pickup.distance.Some? then pickup.distance.value else Distance(m, seeker, pickup.position)
  }

  predicate WithinReach(m: Maths, seeker: Vec2, queryRadius: real, pickup: PickupSource)
  {
    ReachOf(m, seeker, pickup) <= EffectiveRadius(queryRadius, pickup)
  }

  /** A pickup is in reach of the query radius or of its own radius, whichever is the larger; none is negative. */
  lemma WithinReachIff(m: Maths, seeker: Vec2, queryRadius: real, pickup: PickupSource)
    ensures WithinReach(m, seeker, queryRadius, pickup) <==>
            var reach := ReachOf(m, seeker, pickup);
            reach <= 0.0 || reach <= queryRadius || (pickup.radius.Some? && reach <= pickup.radius.value)
    ensures ReachOf(m, seeker, pickup) ==
            if pickup.distance.Some? then pickup.distance.value else Distance(m, seeker, pickup.position)
  {
  }

  function CandidateOf(m: Maths, seeker: Vec2, pickup: PickupSource): PickupCandidate
  {
    PickupCandidate(pickup.id, ReachOf(m, seeker, pickup))
  }

  predicate NotFarther(a: PickupCandidate, b: PickupCandidate)
  {
    if a.distance != b.distance then a.distance <= b.distance else a.id <= b.id
  }

  function Offered(m: Maths, seeker: Vec2, queryRadius: real, pickups: seq<PickupSource>): seq<PickupCandidate>
  {
    if pickups == [] then []
    else
      var last := |pickups| - 1;
      var before := Offered(m, seeker, queryRadius, pickups[..last]);
      if WithinReach(m, seeker, queryRadius,
                     pickups[last]) then before + [CandidateOf(m, seeker, pickups[last])] else before
  }

  method ResolvePickupCandidates(m: Maths, seeker: Vec2, pickups: seq<PickupSource>, queryRadius: real)
    returns (ranked: seq<PickupCandidate>)
    ensures ranked == SortBy(Offered(m, seeker, queryRadius, pickups), NotFarther)
  {
    var candidates := [];
    var i := 0;
    while i < |pickups|
      invariant 0 <= i <= |pickups|
      invariant candidates == Offered(m, seeker, queryRadius, pickups[..i])
    {
      var pickup := pickups[i];
      assert pickups[..i + 1][..i] == pickups[..i];
      var reach := if pickup.distance.Some? then pickup.distance.value else Distance(m, seeker, pickup.position);
      if reach <= EffectiveRadius(queryRadius, pickup) {
        candidates := candidates + [PickupCandidate(pickup.id, reach)];
      }
      i := i + 1;
    }
    assert pickups[..i] == pickups;
    ranked := SortBy(candidates, NotFarther);
  }

  lemma {:induction false} OfferedMembers(m: Maths, seeker: Vec2, queryRadius: real, pickups: seq<PickupSource>,
      c: PickupCandidate)
    ensures c in Offered(m, seeker, queryRadius, pickups) <==>
            exists p :: p in pickups && WithinReach(m, seeker, queryRadius, p) && CandidateOf(m, seeker, p) == c
  {
    if pickups != [] {
      var last := |pickups| - 1;
      OfferedMembers(m, seeker, queryRadius, pickups[..last], c);
      assert pickups == pickups[..last] + [pickups[last]];
    }
  }

  /** Each pickup contributes its candidate once for each time it is offered. */
  lemma {:induction false} OfferedAppend(m: Maths, seeker: Vec2, queryRadius: real, a: seq<PickupSource>,
      b: seq<PickupSource>)
    ensures Offered(m, seeker, queryRadius, a + b) ==
            Offered(m, seeker, queryRadius, a) + Offered(m, seeker, queryRadius, b)
  {
    if b == [] {
      assert a + b == a;
    } else {
      var last := |b| - 1;
      OfferedAppend(m, seeker, queryRadius, a, b[..last]);
      assert (a + b)[..|a| + last] == a + b[..last] && (a + b)[|a| + last] == b[last];
    }
  }

  /** Taking the same element out of two permutations leaves permutations. */
  lemma SameRest<T>(a: seq<T>, b: seq<T>, j: nat)
    requires a != [] && j < |b| && b[j] == a[|a| - 1] && multiset(a) == multiset(b)
    ensures multiset(a[..|a| - 1]) == multiset(b[..j] + b[j + 1..])
  {
    var last := |a| - 1;
    assert a == a[..last] + [a[last]];
    assert b == b[..j] + [b[j]] + b[j + 1..];
    assert multiset(a[..last]) == multiset(a) - multiset{a[last]};
  }

  lemma OfferedMiddle(m: Maths, seeker: Vec2, queryRadius: real, b: seq<PickupSource>, j: nat)
    requires j < |b|
    ensures multiset(Offered(m, seeker, queryRadius, b)) ==
            multiset(Offered(m, seeker, queryRadius, b[..j] + b[j + 1..]))
            + multiset(Offered(m, seeker, queryRadius, [b[j]]))
  {
    var front, back := b[..j], b[j + 1..];
    assert b == front + [b[j]] + back;
    OfferedAppend(m, seeker, queryRadius, front, back);
    OfferedAppend(m, seeker, queryRadius, front, [b[j]]);
    OfferedAppend(m, seeker, queryRadius, front + [b[j]], back);
  }

  lemma {:induction false} OfferedForgetsOrder(m: Maths, seeker: Vec2, queryRadius: real, a: seq<PickupSource>,
      b: seq<PickupSource>)
    requires multiset(a) == multiset(b)
    ensures multiset(Offered(m, seeker, queryRadius, a)) == multiset(Offered(m, seeker, queryRadius, b))
  {
    if a == [] {
      assert |multiset(b)| == 0;
    } else {
      var last := |a| - 1;
      assert a[last] in multiset(b);
      var j :| 0 <= j < |b| && b[j] == a[last];
      SameRest(a, b, j);
      OfferedForgetsOrder(m, seeker, queryRadius, a[..last], b[..j] + b[j + 1..]);
      OfferedMiddle(m, seeker, queryRadius, b, j);
      OfferedAppend(m, seeker, queryRadius, a[..last], [a[last]]);
      assert a == a[..last] + [a[last]];
    }
  }

  /**
   The ranking holds exactly the pickups in reach, nearest first and then by id, and does not
   depend on the order in which they were offered.
   */
  lemma RankingIsCanonical(m: Maths, seeker: Vec2, queryRadius: real, pickups: seq<PickupSource>,
                           other: seq<PickupSource>)
    requires multiset(pickups) == multiset(other)
    ensures var ranked := SortBy(Offered(m, seeker, queryRadius, pickups), NotFarther);
            && ranked == SortBy(Offered(m, seeker, queryRadius, other), NotFarther)
            && (forall i, j :: 0 <= i < j < |ranked| ==>
                  || ranked[i].distance < ranked[j].distance
                  || (ranked[i].distance == ranked[j].distance && ranked[i].id <= ranked[j].id))
            && (forall p :: p in pickups && WithinReach(m, seeker, queryRadius, p) ==>
                  CandidateOf(m, seeker, p) in ranked)
            && (forall c :: c in ranked ==> exists p :: p in pickups && WithinReach(m, seeker, queryRadius, p)
                                                        && CandidateOf(m, seeker, p) == c)
  {
    var offered := Offered(m, seeker, queryRadius, pickups);
    OfferedForgetsOrder(m, seeker, queryRadius, pickups, other);
    SortForgetsOrder(offered, Offered(m, seeker, queryRadius, other), NotFarther);
    SortSorted(offered, NotFarther);
    SortMultiset(offered, NotFarther);
    forall p | p in pickups && WithinReach(m, seeker, queryRadius, p) ensures CandidateOf(m, seeker, p) in offered {
      OfferedMembers(m, seeker, queryRadius, pickups, CandidateOf(m, seeker, p));
    }
    forall c | c in offered
      ensures exists p :: p in pickups && WithinReach(m, seeker, queryRadius, p) && CandidateOf(m, seeker, p) == c
    {
      OfferedMembers(m, seeker, queryRadius, pickups, c);
    }
  }
}
