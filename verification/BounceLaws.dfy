/**
 What a bouncing shot does (packages/simulation/src/delivery.ts): the wall that ends a leg, the
 leg that follows, and whom the shot hits.
 */
module BounceLaws {
  import opened Wrappers
  import opened Sorting
  import opened Geometry
  import opened Damage
  import opened World
  import opened Targeting
  import opened Delivery
  import opened DeliveryLaws

  // ----- the wall that ends a leg -----

  /** Blocker `i` stops the segment with `entry`, and nothing stops it sooner; among equals the first blocker counts. */
  ghost predicate FirstWall(blockers: seq<Blocker>, i: int, from: Vec2, to: Vec2, entry: BoxEntry)
  {
    && 0 <= i < |blockers| && blockers[i].blocksProjectiles
    && AabbEntry(from, to, blockers[i].box) == Some(entry)
    && forall j, t :: 0 <= j < |blockers| && blockers[j].blocksProjectiles
                      && TouchesAt(from, to, blockers[j].box, t) ==>
         entry.t <= t && (j < i ==> entry.t < t)
  }

  /** `wall` is the first contact with projectile-stopping geometry, absent exactly when there is none. */
  ghost predicate EarliestWall(blockers: seq<Blocker>, from: Vec2, to: Vec2, wall: Option<BoxEntry>)
  {
    && (wall.None? <==> !Blocked(blockers, from, to, 0.0))
    && (wall.Some? ==> exists i :: FirstWall(blockers, i, from, to, wall.value))
  }

  lemma GrowNothing(box: Box)
    ensures Grow(box, 0.0) == box
  {
  }

  /** One more blocker: its entry replaces the best so far only by coming strictly sooner. */
  lemma OneMoreBlocker(seen: seq<Blocker>, b: Blocker, from: Vec2, to: Vec2, best: Option<BoxEntry>)
    requires EarliestWall(seen, from, to, best)
    ensures EarliestWall(seen + [b], from, to, BetterEntry(best, b, from, to))
  {
    var all, better := seen + [b], BetterEntry(best, b, from, to);
    GrowNothing(b.box);
    EntryIsFirstContact(from, to, b.box);
    assert forall c :: c in all <==> c in seen || c == b;
    assert Blocked(all, from, to, 0.0) <==>
        Blocked(seen, from, to, 0.0) || (b.blocksProjectiles && SegmentMeets(from, to, b.box));
    if better.Some? {
      if better == best {
        var i :| FirstWall(seen, i, from, to, best.value);
        assert FirstWall(all, i, from, to, best.value);
      } else {
        SoonerThanAll(seen, from, to, best, better.value.t);
        assert FirstWall(all, |seen|, from, to, better.value);
      }
    }
  }

  lemma SoonerThanAll(seen: seq<Blocker>, from: Vec2, to: Vec2, best: Option<BoxEntry>, sooner: real)
    requires EarliestWall(seen, from, to, best) && (best.None? || sooner < best.value.t)
    ensures forall j, t :: 0 <= j < |seen| && seen[j].blocksProjectiles && TouchesAt(from, to, seen[j].box, t) ==>
        sooner < t
  {
    if best.None? {
      forall j, t | 0 <= j < |seen| && seen[j].blocksProjectiles ensures !TouchesAt(from, to, seen[j].box, t) {
        GrowNothing(seen[j].box);
        assert !SegmentMeets(from, to, Grow(seen[j].box, 0.0));
      }
    } else {
      var i :| FirstWall(seen, i, from, to, best.value);
    }
  }

  lemma {:induction false} NearestEntryGoesOn(seen: seq<Blocker>, rest: seq<Blocker>, from: Vec2, to: Vec2,
      best: Option<BoxEntry>)
    requires EarliestWall(seen, from, to, best)
    ensures EarliestWall(seen + rest, from, to, NearestEntry(best, rest, from, to))
    decreases rest
  {
    if rest == [] {
      assert seen + rest == seen;
    } else {
      var better := BetterEntry(best, rest[0], from, to);
      OneMoreBlocker(seen, rest[0], from, to, best);
      NearestEntryGoesOn(seen + [rest[0]], rest[1..], from, to, better);
      assert seen + [rest[0]] + rest[1..] == seen + rest;
    }
  }

  /** The scan over the blockers finds the earliest wall. */
  lemma NearestEntryIsEarliest(blockers: seq<Blocker>, from: Vec2, to: Vec2)
    ensures EarliestWall(blockers, from, to, NearestEntry(None, blockers, from, to))
  {
    NearestEntryGoesOn([], blockers, from, to, None);
    assert [] + blockers == blockers;
  }

  /** There is only one earliest wall. */
  lemma EarliestWallIsUnique(blockers: seq<Blocker>, from: Vec2, to: Vec2, a: Option<BoxEntry>, b: Option<BoxEntry>)
    requires EarliestWall(blockers, from, to, a) && EarliestWall(blockers, from, to, b)
    ensures a == b
  {
    if a.Some? {
      var i :| FirstWall(blockers, i, from, to, a.value);
      var j :| FirstWall(blockers, j, from, to, b.value);
      EntryIsFirstContact(from, to, blockers[i].box);
      EntryIsFirstContact(from, to, blockers[j].box);
    }
  }

  // ----- the leg after a contact -----

  ghost predicate Unit(d: Vec2)
  {
    LengthSquared(d) == 1.0
  }

  /** The next leg keeps a unit direction, and the way to the wall and the new range add up to the old range. */
  lemma RangeIsSpent(m: Maths, leg: Leg, wall: BoxEntry)
    requires Lawful(m) && Unit(leg.direction) && leg.remaining >= 0.0 && wall.t >= 0.0
    ensures Unit(NextLeg(m, leg, wall).direction)
    ensures Distance(m, Along(leg.origin, LegEnd(leg), wall.t),
                     leg.origin) + NextLeg(m, leg, wall).remaining == leg.remaining
  {
    var k := leg.remaining * wall.t;
    NormalizedSquare(m, ReflectVec(leg.direction, wall.normal));
    SameSigns(leg.remaining, wall.t);
    WayToHit(m, leg, wall.t, Along(leg.origin, LegEnd(leg), wall.t), k);
    assert NextLeg(m, leg, wall).remaining == leg.remaining - k;
  }

  lemma UnitIsNormal(m: Maths, a: Vec2)
    requires Lawful(m) && Unit(a)
    ensures NormalizeVec(m, a) == a
  {
    assert HypotAt(m, a.x, a.y);
    SameSquare(m.hypot(a.x, a.y), 1.0, 1.0);
  }

  /**
   After a contact the shot goes on in the direction reflected on the wall, from the point of contact
   and a nudge along that direction, with the part of the range it has not flown.
   */
  lemma BounceReflects(m: Maths, leg: Leg, wall: BoxEntry)
    requires Lawful(m) && Unit(leg.direction) && Unit(wall.normal)
    ensures var next := NextLeg(m, leg, wall);
            && next.direction == ReflectVec(leg.direction, wall.normal)
            && SubVec(next.origin, Along(leg.origin, LegEnd(leg), wall.t)) == ScaleVec(next.direction, 0.000001)
            && next.remaining == leg.remaining * (1.0 - wall.t)
  {
    var reflected := ReflectVec(leg.direction, wall.normal);
    ReflectionLaws(leg.direction, wall.normal, Vec2(-wall.normal.y, wall.normal.x));
    UnitIsNormal(m, reflected);
  }

  /** A target does not count exactly when it is farther out than the wall. */
  lemma BeyondMeansFarther(along: real, remaining: real, wall: Option<BoxEntry>)
    requires remaining > 0.0
    ensures BeyondWall(along, remaining, wall) <==> wall.Some? && along > wall.value.t * remaining
  {
    if wall.Some? {
      var q, t := along / remaining, wall.value.t;
      assert q * remaining == along;
      var gap := q - t;
      assert gap * remaining == along - t * remaining;
      if gap > 0.0 {
        assert gap * remaining > 0.0;
      } else {
        assert (-gap) * remaining >= 0.0;
      }
    }
  }

  lemma HitPoint(leg: Leg, t: real)
    ensures Along(leg.origin, LegEnd(leg), t) == AddVec(leg.origin, ScaleVec(leg.direction, leg.remaining * t))
  {
    PartOfWay(leg.direction.x, leg.remaining, t);
    PartOfWay(leg.direction.y, leg.remaining, t);
  }

  lemma WayToHit(m: Maths, leg: Leg, t: real, hit: Vec2, k: real)
    requires Lawful(m) && Unit(leg.direction) && k >= 0.0
    requires hit == Along(leg.origin, LegEnd(leg), t) && k == leg.remaining * t
    ensures Distance(m, hit, leg.origin) == k
  {
    HitPoint(leg, t);
    var x, y := hit.x - leg.origin.x, hit.y - leg.origin.y;
    assert HypotAt(m, x, y);
    ScaledLength(leg.direction.x, leg.direction.y, k, m.hypot(x, y), x, y);
  }

  lemma PartOfWay(d: real, remaining: real, t: real)
    ensures d * remaining * t == d * (remaining * t)
  {
  }

  lemma FirstLegIsUnit(m: Maths, aim: Vec2)
    requires Lawful(m)
    ensures Unit(NormalizeVec(m, aim))
  {
    NormalizedSquare(m, aim);
  }

  /** A point that a coordinate leaves behind for good: below a slab and falling, or above it and rising. */
  predicate Leaving(lo: real, hi: real, v: real, d: real)
  {
    (v < Min(lo, hi) && d <= 0.0) || (v > Max(lo, hi) && d >= 0.0)
  }

  lemma LeavingMisses(a: Vec2, b: Vec2, box: Box)
    requires Leaving(box.minX, box.maxX, a.x, b.x - a.x) || Leaving(box.minY, box.maxY, a.y, b.y - a.y)
    ensures !SegmentMeets(a, b, box)
  {
    forall t | 0.0 <= t <= 1.0 ensures !TouchesAt(a, b, box, t) {
      AlongIsAt(a, b, t);
      AtSide(a.x, b.x - a.x, t);
      AtSide(a.y, b.y - a.y, t);
    }
  }

  lemma AtSide(v: real, d: real, t: real)
    requires t >= 0.0
    ensures d <= 0.0 ==> At(v, d, t) <= v
    ensures d >= 0.0 ==> At(v, d, t) >= v
  {
    assert At(v, d, t) - v == d * t;
  }

  /** The contact coordinate is the bound that faces the motion. */
  lemma NearBound(lo: real, hi: real, from: real, delta: real)
    requires delta != 0.0
    ensures At(from, delta, NearCrossing(lo, hi, from, delta)) == if delta > 0.0 then Min(lo, hi) else Max(lo, hi)
  {
    var t1, t2 := Crossing(lo, from, delta), Crossing(hi, from, delta);
    CrossingReaches(lo, from, delta);
    CrossingReaches(hi, from, delta);
    AtOrder(from, delta, t1, t2);
    AtOrder(from, delta, t2, t1);
  }

  /** A reflected coordinate: at the near bound, nudged and moving back the way it came. */
  lemma TurnedBack(lo: real, hi: real, from: real, d: real, remaining: real, delta: real, r: real, reach: real)
    requires delta == d * remaining && delta != 0.0 && remaining > 0.0 && reach >= 0.0
    requires (d > 0.0 ==> r < 0.0) && (d < 0.0 ==> r > 0.0)
    ensures Leaving(lo, hi, At(from, delta, NearCrossing(lo, hi, from, delta)) + r * NUDGE, r * reach)
  {
    NearBound(lo, hi, from, delta);
    SameSigns(d, remaining);
    SameSigns(r, NUDGE);
    SameSigns(r, reach);
  }

  lemma SameSigns(d: real, k: real)
    requires k >= 0.0
    ensures d <= 0.0 ==> d * k <= 0.0
    ensures d >= 0.0 ==> d * k >= 0.0
    ensures k > 0.0 && d > 0.0 ==> d * k > 0.0
    ensures k > 0.0 && d < 0.0 ==> d * k < 0.0
  {
    if k > 0.0 && d < 0.0 {
      MulLt(k, d, 0.0);
    } else if k > 0.0 && d > 0.0 {
      MulLt(k, 0.0, d);
    }
  }

  /** Normalizing keeps the sign of a coordinate. */
  lemma NormalizedSign(m: Maths, a: Vec2)
    requires Lawful(m) && (a.x != 0.0 || a.y != 0.0)
    ensures var n := NormalizeVec(m, a);
            && (a.x > 0.0 ==> n.x > 0.0) && (a.x < 0.0 ==> n.x < 0.0) && (a.x == 0.0 ==> n.x == 0.0)
            && (a.y > 0.0 ==> n.y > 0.0) && (a.y < 0.0 ==> n.y < 0.0) && (a.y == 0.0 ==> n.y == 0.0)
  {
    assert HypotAt(m, a.x, a.y);
    var h := m.hypot(a.x, a.y);
    if h == 0.0 {
      SquaresVanish(a.x, a.y, a.x * a.x, a.y * a.y);
    }
    QuotientSign(a.x, h);
    QuotientSign(a.y, h);
  }

  lemma QuotientSign(n: real, h: real)
    requires h >= 0.0
    ensures h > 0.0 ==> (n > 0.0 ==> n / h > 0.0) && (n < 0.0 ==> n / h < 0.0) && (n == 0.0 ==> n / h == 0.0)
  {
  }

  /** Reflecting on a face turns one coordinate round and leaves the other. */
  lemma ReflectOnFace(d: Vec2, normal: Vec2)
    requires normal == Vec2(1.0, 0.0) || normal == Vec2(-1.0, 0.0) || normal == Vec2(0.0, 1.0)
        || normal == Vec2(0.0, -1.0)
    ensures ReflectVec(d, normal) == if normal.x != 0.0 then Vec2(-d.x, d.y) else Vec2(d.x, -d.y)
  {
  }

  /** The segment of the next leg, up to any length. */
  function LegTo(leg: Leg, reach: real): Vec2
  {
    AddVec(leg.origin, ScaleVec(leg.direction, reach))
  }

  /**
   After a contact later than its start, a leg never meets the same box again, whatever the
   length of the next leg and whatever the box.
   */
  lemma BounceLeavesTheWall(m: Maths, leg: Leg, box: Box, wall: BoxEntry, reach: real)
    requires Lawful(m) && leg.remaining > 0.0 && reach >= 0.0
    requires AabbEntry(leg.origin, LegEnd(leg), box) == Some(wall) && wall.t > 0.0
    ensures var next := NextLeg(m, leg, wall);
            !SegmentMeets(next.origin, LegTo(next, reach), box)
  {
    ContactAxis(leg, box, wall);
    LeavesTheAxis(m, leg, box, wall, reach);
  }

  /** A contact after the start: its face and when that face's coordinate is crossed. */
  ghost predicate CrossedAt(leg: Leg, box: Box, wall: BoxEntry)
  {
    var dx, dy := LegEnd(leg).x - leg.origin.x, LegEnd(leg).y - leg.origin.y;
    || ((wall.normal == Vec2(1.0, 0.0) || wall.normal == Vec2(-1.0, 0.0))
        && dx != 0.0 && leg.direction.x != 0.0 && wall.t == NearCrossing(box.minX, box.maxX, leg.origin.x, dx))
    || ((wall.normal == Vec2(0.0, 1.0) || wall.normal == Vec2(0.0, -1.0))
        && dy != 0.0 && leg.direction.y != 0.0 && wall.t == NearCrossing(box.minY, box.maxY, leg.origin.y, dy))
  }

  lemma ContactAxis(leg: Leg, box: Box, wall: BoxEntry)
    requires AabbEntry(leg.origin, LegEnd(leg), box) == Some(wall) && wall.t > 0.0
    ensures CrossedAt(leg, box, wall)
  {
    EntryNormalCases(leg.origin, LegEnd(leg), box);
  }

  lemma LeavesTheAxis(m: Maths, leg: Leg, box: Box, wall: BoxEntry, reach: real)
    requires Lawful(m) && leg.remaining > 0.0 && reach >= 0.0 && CrossedAt(leg, box, wall)
    ensures var next := NextLeg(m, leg, wall);
            !SegmentMeets(next.origin, LegTo(next, reach), box)
  {
    TurnsRound(m, leg, wall);
    if wall.normal.x != 0.0 {
      LeavesX(m, leg, box, wall, NextLeg(m, leg, wall), reach);
    } else {
      LeavesY(m, leg, box, wall, NextLeg(m, leg, wall), reach);
    }
  }

  lemma LeavesX(m: Maths, leg: Leg, box: Box, wall: BoxEntry, next: Leg, reach: real)
    requires leg.remaining > 0.0 && reach >= 0.0 && CrossedAt(leg, box, wall) && wall.normal.x != 0.0
    requires next.origin.x == At(leg.origin.x, LegEnd(leg).x - leg.origin.x, wall.t) + next.direction.x * NUDGE
    requires (leg.direction.x > 0.0 ==> next.direction.x < 0.0) && (leg.direction.x < 0.0 ==> next.direction.x > 0.0)
    ensures !SegmentMeets(next.origin, LegTo(next, reach), box)
  {
    TurnedBack(box.minX, box.maxX, leg.origin.x, leg.direction.x, leg.remaining, LegEnd(leg).x - leg.origin.x,
               next.direction.x, reach);
    LeavingMisses(next.origin, LegTo(next, reach), box);
  }

  lemma LeavesY(m: Maths, leg: Leg, box: Box, wall: BoxEntry, next: Leg, reach: real)
    requires leg.remaining > 0.0 && reach >= 0.0 && CrossedAt(leg, box, wall) && wall.normal.x == 0.0
    requires next.origin.y == At(leg.origin.y, LegEnd(leg).y - leg.origin.y, wall.t) + next.direction.y * NUDGE
    requires (leg.direction.y > 0.0 ==> next.direction.y < 0.0) && (leg.direction.y < 0.0 ==> next.direction.y > 0.0)
    ensures !SegmentMeets(next.origin, LegTo(next, reach), box)
  {
    TurnedBack(box.minY, box.maxY, leg.origin.y, leg.direction.y, leg.remaining, LegEnd(leg).y - leg.origin.y,
               next.direction.y, reach);
    LeavingMisses(next.origin, LegTo(next, reach), box);
  }

  /** The next leg starts a nudge from the contact and heads back along the normal's axis. */
  lemma TurnsRound(m: Maths, leg: Leg, wall: BoxEntry)
    requires Lawful(m)
    requires wall.normal == Vec2(1.0, 0.0) || wall.normal == Vec2(-1.0, 0.0) || wall.normal == Vec2(0.0, 1.0)
        || wall.normal == Vec2(0.0, -1.0)
    requires (wall.normal.x != 0.0 ==> leg.direction.x != 0.0) && (wall.normal.y != 0.0 ==> leg.direction.y != 0.0)
    ensures var next, a, b, d := NextLeg(m, leg, wall), leg.origin, LegEnd(leg), leg.direction;
            && next.origin == AddVec(Vec2(At(a.x, b.x - a.x, wall.t), At(a.y, b.y - a.y, wall.t)),
                                     ScaleVec(next.direction, NUDGE))
            && (wall.normal.x != 0.0 ==> (d.x > 0.0 ==> next.direction.x < 0.0)
                                         && (d.x < 0.0 ==> next.direction.x > 0.0))
            && (wall.normal.y != 0.0 ==> (d.y > 0.0 ==> next.direction.y < 0.0)
                                         && (d.y < 0.0 ==> next.direction.y > 0.0))
  {
    ReflectOnFace(leg.direction, wall.normal);
    NormalizedSign(m, ReflectVec(leg.direction, wall.normal));
  }

  // ----- a leg that starts on or in a box -----

  /** Where the nudge puts a shot that is already in contact: the reported normal is then the default one. */
  function Nudged(m: Maths, leg: Leg): Vec2
  {
    AddVec(leg.origin, ScaleVec(NormalizeVec(m, Vec2(-leg.direction.x, leg.direction.y)), NUDGE))
  }

  /** A contact at the start costs no range and turns the horizontal direction round. */
  lemma StartContact(m: Maths, leg: Leg, box: Box, wall: BoxEntry)
    requires AabbEntry(leg.origin, LegEnd(leg), box) == Some(wall) && wall.t == 0.0
    ensures var next := NextLeg(m, leg, wall);
            && wall.normal == Vec2(-1.0, 0.0) && next.remaining == leg.remaining
            && next.origin == Nudged(m, leg)
                 && next.direction == NormalizeVec(m, Vec2(-leg.direction.x, leg.direction.y))
  {
    DefaultNormal(leg.origin, LegEnd(leg), box);
    ReflectOnFace(leg.direction, wall.normal);
  }

  lemma DefaultNormal(a: Vec2, b: Vec2, box: Box)
    requires AabbEntry(a, b, box).Some? && AabbEntry(a, b, box).value.t == 0.0
    ensures AabbEntry(a, b, box).value.normal == Vec2(-1.0, 0.0)
  {
  }

  /** On a proper box the first contact is at the start exactly when the segment starts in the box. */
  lemma ContactAtStartIff(a: Vec2, b: Vec2, box: Box)
    requires box.Proper() && AabbEntry(a, b, box).Some?
    ensures AabbEntry(a, b, box).value.t == 0.0 <==> box.Holds(a)
  {
    EntryIsFirstContact(a, b, box);
    assert Along(a, b, 0.0) == a;
    assert TouchesAt(a, b, box, 0.0) <==> box.Holds(a);
  }

  /** A ray that has left a proper box it started in does not come back. */
  lemma RayLeavesForGood(p: Vec2, r: Vec2, box: Box, reach: real)
    requires box.Holds(p) && reach >= 0.0
    ensures var q := AddVec(p, ScaleVec(r, NUDGE));
            !box.Holds(q) ==> !SegmentMeets(q, AddVec(q, ScaleVec(r, reach)), box)
  {
    var q := AddVec(p, ScaleVec(r, NUDGE));
    SameSigns(r.x, NUDGE);
    SameSigns(r.y, NUDGE);
    SameSigns(r.x, reach);
    SameSigns(r.y, reach);
    if !box.Holds(q) {
      LeavingMisses(q, AddVec(q, ScaleVec(r, reach)), box);
    }
  }

  lemma StartsInside(a: Vec2, b: Vec2, box: Box)
    requires box.Holds(a)
    ensures SegmentMeets(a, b, box)
  {
    assert Along(a, b, 0.0) == a;
    assert TouchesAt(a, b, box, 0.0);
  }

  /** The next leg is clear of the wall it bounced off, however far it goes. */
  ghost predicate ClearOf(next: Leg, box: Box)
  {
    forall reach :: reach >= 0.0 ==> !SegmentMeets(next.origin, LegTo(next, reach), box)
  }

  /**
   The nudge keeps its promise, that the next leg does not hit the same wall again, exactly when
   the leg starts outside the box or within a nudge of leaving it.
   */
  lemma NudgeClearsTheWallIff(m: Maths, leg: Leg, box: Box, wall: BoxEntry)
    requires Lawful(m) && leg.remaining > 0.0 && box.Proper()
    requires AabbEntry(leg.origin, LegEnd(leg), box) == Some(wall)
    ensures ClearOf(NextLeg(m, leg, wall), box) <==> !box.Holds(leg.origin) || !box.Holds(Nudged(m, leg))
  {
    var next := NextLeg(m, leg, wall);
    ContactAtStartIff(leg.origin, LegEnd(leg), box);
    EntryIsFirstContact(leg.origin, LegEnd(leg), box);
    if box.Holds(leg.origin) {
      StartContact(m, leg, box, wall);
      if box.Holds(next.origin) {
        StartsInside(next.origin, LegTo(next, 0.0), box);
      } else {
        forall reach | reach >= 0.0 ensures !SegmentMeets(next.origin, LegTo(next, reach), box) {
          RayLeavesForGood(leg.origin, next.direction, box, reach);
        }
      }
    } else {
      forall reach | reach >= 0.0 ensures !SegmentMeets(next.origin, LegTo(next, reach), box) {
        BounceLeavesTheWall(m, leg, box, wall, reach);
      }
    }
  }

  lemma HypotOnAxis(m: Maths, x: real)
    requires Lawful(m)
    ensures m.hypot(x, 0.0) == (if x >= 0.0 then x else -x)
  {
    assert HypotAt(m, x, 0.0);
    var size := if x >= 0.0 then x else -x;
    SameSquare(m.hypot(x, 0.0), size, x * x);
  }

  /**
   A shot fired from the middle of a box meets it at once, keeps its whole range, and is still
   inside after the bounce.
   */
  lemma StuckInsideABox(m: Maths)
    requires Lawful(m)
    ensures var box, leg := Box(0.0, 0.0, 2.0, 2.0), Leg(Vec2(1.0, 1.0), Vec2(1.0, 0.0), 5.0);
            var wall := AabbEntry(leg.origin, LegEnd(leg), box);
            && wall.Some? && wall.value.t == 0.0 && NextLeg(m, leg, wall.value).remaining == 5.0
            && !ClearOf(NextLeg(m, leg, wall.value), box)
  {
    var box, leg := Box(0.0, 0.0, 2.0, 2.0), Leg(Vec2(1.0, 1.0), Vec2(1.0, 0.0), 5.0);
    HypotOnAxis(m, -1.0);
    assert NormalizeVec(m, Vec2(-1.0, 0.0)) == Vec2(-1.0, 0.0);
    assert Nudged(m, leg) == Vec2(1.0 - NUDGE, 1.0);
    InsideIsNotCleared(m, leg, box);
  }

  /** A leg that starts in a proper box, deeper than a nudge, meets it at once and for nothing. */
  lemma InsideIsNotCleared(m: Maths, leg: Leg, box: Box)
    requires Lawful(m) && leg.remaining > 0.0 && box.Holds(leg.origin) && box.Holds(Nudged(m, leg))
    ensures var wall := AabbEntry(leg.origin, LegEnd(leg), box);
            && wall.Some? && wall.value.t == 0.0 && NextLeg(m, leg, wall.value).remaining == leg.remaining
            && !ClearOf(NextLeg(m, leg, wall.value), box)
  {
    StartsInside(leg.origin, LegEnd(leg), box);
    EntryIsFirstContact(leg.origin, LegEnd(leg), box);
    ContactAtStartIff(leg.origin, LegEnd(leg), box);
    var wall := AabbEntry(leg.origin, LegEnd(leg), box).value;
    StartContact(m, leg, box, wall);
    NudgeClearsTheWallIff(m, leg, box, wall);
  }

  /** A leg that starts in a projectile-stopping box reaches nobody ahead of its start. */
  lemma NothingAheadFromInside(blockers: seq<Blocker>, b: Blocker, leg: Leg, along: real)
    requires b in blockers && b.blocksProjectiles && b.box.Holds(leg.origin) && leg.remaining > 0.0 && along > 0.0
    ensures BeyondWall(along, leg.remaining, NearestEntry(None, blockers, leg.origin, LegEnd(leg)))
  {
    var wall := NearestEntry(None, blockers, leg.origin, LegEnd(leg));
    NearestEntryIsEarliest(blockers, leg.origin, LegEnd(leg));
    StartsInside(leg.origin, LegEnd(leg), b.box);
    GrowNothing(b.box);
    assert Blocked(blockers, leg.origin, LegEnd(leg), 0.0);
    var i :| FirstWall(blockers, i, leg.origin, LegEnd(leg), wall.value);
    var j :| 0 <= j < |blockers| && blockers[j] == b;
    assert Along(leg.origin, LegEnd(leg), 0.0) == leg.origin;
    assert TouchesAt(leg.origin, LegEnd(leg), blockers[j].box, 0.0);
    QuotientSign(along, leg.remaining);
  }

  // ----- whom a bouncing shot hits -----

  function WallOf(scene: Scene, leg: Leg): Option<BoxEntry>
  {
    NearestEntry(None, scene.blockers, leg.origin, LegEnd(leg))
  }

  /** The leg flown after `bounces` bounces, if the range lasts that long. */
  function LegAfter(m: Maths, scene: Scene, first: Leg, bounces: nat): Option<Leg>
  {
    if bounces == 0 then Some(first)
    else
      var leg := LegAfter(m, scene, first, bounces - 1);
      if leg.None? || WallOf(scene, leg.value).None? then None
      else
        var next := NextLeg(m, leg.value, WallOf(scene, leg.value).value);
        if next.remaining <= 0.0 then None else Some(next)
  }

  /** `s` is reached on the leg no later than the wall that ends it. */
  ghost predicate Met(m: Maths, scene: Scene, leg: Leg, hitRadius: real, s: Struck)
  {
    && Reaches(m, scene, Ray(leg.origin, leg.direction, leg.remaining, hitRadius), s)
    && !BeyondWall(s.along, leg.remaining, WallOf(scene, leg))
  }

  ghost predicate NobodyMet(m: Maths, scene: Scene, leg: Leg, hitRadius: real)
  {
    forall s :: Reaches(m, scene, Ray(leg.origin, leg.direction, leg.remaining, hitRadius), s) ==>
      BeyondWall(s.along, leg.remaining, WallOf(scene, leg))
  }

  /** `s` is the nearest entity met on the leg, ties going to the lower id. */
  ghost predicate FirstMet(m: Maths, scene: Scene, leg: Leg, hitRadius: real, s: Struck)
  {
    && Met(m, scene, leg, hitRadius, s)
    && forall t :: Reaches(m, scene, Ray(leg.origin, leg.direction, leg.remaining, hitRadius), t) ==> NotAfter(s, t)
  }

  lemma FartherIsBeyond(near: real, far: real, remaining: real, wall: Option<BoxEntry>)
    requires near <= far && 0.0 <= near && far <= remaining && BeyondWall(near, remaining, wall)
    ensures BeyondWall(far, remaining, wall)
  {
    QuotientOrder(near, far, remaining);
  }

  lemma QuotientOrder(a: real, b: real, d: real)
    requires a <= b && d > 0.0
    ensures a / d <= b / d
  {
    assert (b / d - a / d) * d == b - a;
  }

  /** The first candidate decides: the leg hits it, or nobody is met at all. */
  lemma LegDecides(m: Maths, scene: Scene, leg: Leg, hitRadius: real)
    requires Lawful(m) && Faithful(scene)
    ensures var struck := LegStruck(m, scene, leg, hitRadius);
            if struck != [] && !BeyondWall(struck[0].along, leg.remaining, WallOf(scene, leg))
            then FirstMet(m, scene, leg, hitRadius, struck[0])
            else NobodyMet(m, scene, leg, hitRadius)
  {
    var struck := LegStruck(m, scene, leg, hitRadius);
    RayStruckIsSorted(m, scene, leg.origin, leg.direction, leg.remaining, hitRadius);
    if struck != [] {
      assert struck[0] in struck;
      forall t | Reaches(m, scene, Ray(leg.origin, leg.direction, leg.remaining, hitRadius), t)
        ensures NotAfter(struck[0], t)
        ensures BeyondWall(struck[0].along, leg.remaining, WallOf(scene, leg)) ==>
            BeyondWall(t.along, leg.remaining, WallOf(scene, leg))
      {
        var j :| 0 <= j < |struck| && struck[j] == t;
        assert j == 0 || NotAfter(struck[0], struck[j]);
        RayAlongInRange(m, leg, hitRadius, struck[0].position);
        RayAlongInRange(m, leg, hitRadius, t.position);
        if BeyondWall(struck[0].along, leg.remaining, WallOf(scene, leg)) {
          FartherIsBeyond(struck[0].along, t.along, leg.remaining, WallOf(scene, leg));
        }
      }
    }
  }

  lemma RayAlongInRange(m: Maths, leg: Leg, hitRadius: real, p: Vec2)
    ensures var along := Reach(m, Ray(leg.origin, leg.direction, leg.remaining, hitRadius), p);
            along.Some? ==> 0.0 <= along.value <= leg.remaining
  {
  }

  /** Leg `k` is not flown or meets nobody. */
  ghost function QuietOn(m: Maths, scene: Scene, d: DamageDelivery, first: Leg): int -> bool
    requires d.BounceDelivery?
  {
    (k: int) => k >= 0 && (LegAfter(m, scene, first, k).Some? ==>
                             NobodyMet(m, scene, LegAfter(m, scene, first, k).value, d.hitRadius))
  }

  /** Leg `k` is flown and the plan is the hit on the first entity met there. */
  ghost function HitsOn(m: Maths, scene: Scene, d: DamageDelivery, first: Leg, plan: seq<PlannedHit>): int -> bool
    requires d.BounceDelivery?
  {
    (k: int) => k >= 0 && LegAfter(m, scene, first, k).Some?
        && HitsOnLeg(m, scene, d, LegAfter(m, scene, first, k).value, plan)
  }

  ghost predicate HitsOnLeg(m: Maths, scene: Scene, d: DamageDelivery, leg: Leg, plan: seq<PlannedHit>)
    requires d.BounceDelivery?
  {
    exists s :: FirstMet(m, scene, leg, d.hitRadius, s)
                && plan == [HitFrom(d.damage, d.falloff, d.knockback, leg.origin)(s)]
  }

  /** Some number from `lo` to `hi` is a hit and all before it are quiet, or all are quiet. */
  ghost predicate FirstHit(quiet: int -> bool, hit: int -> bool, lo: int, hi: int, none: bool)
  {
    if none then forall k :: lo <= k <= hi ==> quiet(k)
    else exists k :: lo <= k <= hi && hit(k) && forall j :: lo <= j < k ==> quiet(j)
  }

  lemma FirstHitFrom(quiet: int -> bool, hit: int -> bool, lo: int, hi: int, none: bool)
    requires quiet(lo) && FirstHit(quiet, hit, lo + 1, hi, none)
    ensures FirstHit(quiet, hit, lo, hi, none)
  {
  }

  /** What the plan says from leg `bounce` on: the first leg that meets anybody decides. */
  ghost predicate BounceLaw(m: Maths, scene: Scene, d: DamageDelivery, first: Leg, bounce: nat, plan: seq<PlannedHit>)
    requires d.BounceDelivery?
  {
    FirstHit(QuietOn(m, scene, d, first), HitsOn(m, scene, d, first, plan), bounce, d.maxBounces, plan == [])
  }

  lemma {:induction false} NoLegsLater(m: Maths, scene: Scene, first: Leg, k: nat, n: nat)
    requires k <= n && LegAfter(m, scene, first, k).None?
    ensures LegAfter(m, scene, first, n).None?
    decreases n
  {
    if k < n {
      NoLegsLater(m, scene, first, k, n - 1);
    }
  }

  lemma {:induction false} PlanObeysLaw(m: Maths, scene: Scene, d: DamageDelivery, first: Leg, leg: Leg, bounce: nat)
    requires Lawful(m) && Faithful(scene) && d.BounceDelivery?
    requires LegAfter(m, scene, first, bounce) == Some(leg)
    ensures BounceLaw(m, scene, d, first, bounce, PlanBounces(m, scene, d, leg, bounce))
    decreases d.maxBounces - bounce
  {
    if bounce <= d.maxBounces {
      var plan := PlanBounces(m, scene, d, leg, bounce);
      LegHitsOrIsQuiet(m, scene, d, leg, bounce);
      if HitsOnLeg(m, scene, d, leg, plan) {
        HitObeysLaw(m, scene, d, first, leg, bounce, plan);
      } else {
        NextPlan(m, scene, d, first, leg, bounce);
        if LegAfter(m, scene, first, bounce + 1).Some? {
          PlanObeysLaw(m, scene, d, first, LegAfter(m, scene, first, bounce + 1).value, bounce + 1);
        } else {
          NoLegObeysLaw(m, scene, d, first, bounce + 1);
        }
        QuietObeysLaw(m, scene, d, first, leg, bounce, plan);
      }
    }
  }

  lemma HitObeysLaw(m: Maths, scene: Scene, d: DamageDelivery, first: Leg, leg: Leg, bounce: nat, plan: seq<PlannedHit>)
    requires d.BounceDelivery? && bounce <= d.maxBounces
    requires LegAfter(m, scene, first, bounce) == Some(leg) && HitsOnLeg(m, scene, d, leg, plan)
    ensures BounceLaw(m, scene, d, first, bounce, plan)
  {
    assert HitsOn(m, scene, d, first, plan)(bounce);
  }

  lemma QuietObeysLaw(m: Maths, scene: Scene, d: DamageDelivery, first: Leg, leg: Leg, bounce: nat,
                      plan: seq<PlannedHit>)
    requires d.BounceDelivery? && LegAfter(m, scene, first, bounce) == Some(leg)
    requires NobodyMet(m, scene, leg, d.hitRadius)
    requires BounceLaw(m, scene, d, first, bounce + 1, plan)
    ensures BounceLaw(m, scene, d, first, bounce, plan)
  {
    assert QuietOn(m, scene, d, first)(bounce);
    FirstHitFrom(QuietOn(m, scene, d, first), HitsOn(m, scene, d, first, plan), bounce, d.maxBounces, plan == []);
  }

  lemma NoLegObeysLaw(m: Maths, scene: Scene, d: DamageDelivery, first: Leg, bounce: nat)
    requires d.BounceDelivery? && LegAfter(m, scene, first, bounce).None?
    ensures BounceLaw(m, scene, d, first, bounce, [])
  {
    var quiet := QuietOn(m, scene, d, first);
    forall k: int | bounce <= k <= d.maxBounces ensures quiet(k) {
      NoLegsLater(m, scene, first, bounce, k);
    }
  }

  lemma LegHitsOrIsQuiet(m: Maths, scene: Scene, d: DamageDelivery, leg: Leg, bounce: nat)
    requires Lawful(m) && Faithful(scene) && d.BounceDelivery? && bounce <= d.maxBounces
    ensures HitsOnLeg(m, scene, d, leg, PlanBounces(m, scene, d, leg, bounce)) || NobodyMet(m, scene, leg, d.hitRadius)
  {
    LegDecides(m, scene, leg, d.hitRadius);
    var struck := LegStruck(m, scene, leg, d.hitRadius);
    if struck != [] && !BeyondWall(struck[0].along, leg.remaining, WallOf(scene, leg)) {
      assert PlanBounces(m, scene, d, leg,
                         bounce) == [HitFrom(d.damage, d.falloff, d.knockback, leg.origin)(struck[0])];
    }
  }

  /** When a leg meets nobody the plan is that of the next leg, if there is one. */
  lemma NextPlan(m: Maths, scene: Scene, d: DamageDelivery, first: Leg, leg: Leg, bounce: nat)
    requires Lawful(m) && Faithful(scene) && d.BounceDelivery? && bounce <= d.maxBounces
    requires LegAfter(m, scene, first, bounce) == Some(leg) && NobodyMet(m, scene, leg, d.hitRadius)
    ensures var next := LegAfter(m, scene, first, bounce + 1);
            PlanBounces(m, scene, d, leg, bounce) ==
              if next.Some? then PlanBounces(m, scene, d, next.value, bounce + 1) else []
  {
    RayStruckIsSorted(m, scene, leg.origin, leg.direction, leg.remaining, d.hitRadius);
    var struck := LegStruck(m, scene, leg, d.hitRadius);
    assert struck != [] ==> struck[0] in struck;
  }

  /**
   A bouncing shot hits exactly the nearest entity met on the first of its legs on which anybody
   is met, and nobody when no leg within the bounce budget and the range meets anybody.
   */
  lemma BounceHitsTheFirstMet(m: Maths, scene: Scene, d: DamageDelivery, first: Leg)
    requires Lawful(m) && Faithful(scene) && d.BounceDelivery?
    ensures BounceLaw(m, scene, d, first, 0, PlanBounces(m, scene, d, first, 0))
    ensures |PlanBounces(m, scene, d, first, 0)| <= 1
  {
    PlanObeysLaw(m, scene, d, first, first, 0);
    BounceHitsOnce(m, scene, d, first, 0);
  }

  /** However often it reflects, a bouncing shot hits at most one entity. */
  lemma {:induction false} BounceHitsOnce(m: Maths, scene: Scene, d: DamageDelivery, leg: Leg, bounce: int)
    requires d.BounceDelivery?
    ensures |PlanBounces(m, scene, d, leg, bounce)| <= 1
    decreases d.maxBounces - bounce
  {
    if bounce <= d.maxBounces {
      var wall := NearestEntry(None, scene.blockers, leg.origin, LegEnd(leg));
      if wall.Some? {
        BounceHitsOnce(m, scene, d, NextLeg(m, leg, wall.value), bounce + 1);
      }
    }
  }

  // ----- the range of a whole shot -----

  /** The way from the start of a leg to the wall that ends it. */
  function WayToWall(m: Maths, scene: Scene, leg: Leg): real
    requires WallOf(scene, leg).Some?
  {
    Distance(m, Along(leg.origin, LegEnd(leg), WallOf(scene, leg).value.t), leg.origin)
  }

  /** The ways flown to the first `bounces` walls. */
  function WayFlown(m: Maths, scene: Scene, first: Leg, bounces: nat): real
    requires LegAfter(m, scene, first, bounces).Some?
  {
    if bounces == 0 then 0.0
    else WayFlown(m, scene, first, bounces - 1) + WayToWall(m, scene, LegAfter(m, scene, first, bounces - 1).value)
  }

  lemma WallIsOnTheLeg(scene: Scene, leg: Leg)
    ensures WallOf(scene, leg).Some? ==> 0.0 <= WallOf(scene, leg).value.t <= 1.0
  {
    NearestEntryIsEarliest(scene.blockers, leg.origin, LegEnd(leg));
    if WallOf(scene, leg).Some? {
      var i :| FirstWall(scene.blockers, i, leg.origin, LegEnd(leg), WallOf(scene, leg).value);
      EntryIsFirstContact(leg.origin, LegEnd(leg), scene.blockers[i].box);
    }
  }

  lemma {:induction false} LegsSpendTheRange(m: Maths, scene: Scene, first: Leg, bounces: nat)
    requires Lawful(m) && Unit(first.direction) && first.remaining >= 0.0
    requires LegAfter(m, scene, first, bounces).Some?
    ensures var leg := LegAfter(m, scene, first, bounces).value;
            && Unit(leg.direction) && leg.remaining >= 0.0
            && WayFlown(m, scene, first, bounces) + leg.remaining == first.remaining
  {
    if bounces > 0 {
      LegsSpendTheRange(m, scene, first, bounces - 1);
      var leg := LegAfter(m, scene, first, bounces - 1).value;
      WallIsOnTheLeg(scene, leg);
      RangeIsSpent(m, leg, WallOf(scene, leg).value);
    }
  }

  /**
   A bouncing shot spends exactly its range: on every leg it flies, the direction is a unit vector
   and the ways flown to the walls so far and the range that remains add up to the range it had.
   */
  lemma ShotSpendsItsRange(m: Maths, scene: Scene, origin: Vec2, aim: Vec2, range: real, bounces: nat)
    requires Lawful(m) && range >= 0.0
    requires LegAfter(m, scene, Leg(origin, NormalizeVec(m, aim), range), bounces).Some?
    ensures var first := Leg(origin, NormalizeVec(m, aim), range);
            var leg := LegAfter(m, scene, first, bounces).value;
            && Unit(leg.direction) && 0.0 <= leg.remaining <= range
            && WayFlown(m, scene, first, bounces) + leg.remaining == range
  {
    var first := Leg(origin, NormalizeVec(m, aim), range);
    FirstLegIsUnit(m, aim);
    LegsSpendTheRange(m, scene, first, bounces);
    WayIsForward(m, scene, first, bounces);
  }

  lemma DistanceIsForward(m: Maths, a: Vec2, b: Vec2)
    requires Lawful(m)
    ensures Distance(m, a, b) >= 0.0
  {
    assert HypotAt(m, a.x - b.x, a.y - b.y);
  }

  lemma {:induction false} WayIsForward(m: Maths, scene: Scene, first: Leg, bounces: nat)
    requires Lawful(m) && LegAfter(m, scene, first, bounces).Some?
    ensures WayFlown(m, scene, first, bounces) >= 0.0
  {
    if bounces > 0 {
      WayIsForward(m, scene, first, bounces - 1);
      var leg := LegAfter(m, scene, first, bounces - 1).value;
      DistanceIsForward(m, Along(leg.origin, LegEnd(leg), WallOf(scene, leg).value.t), leg.origin);
    }
  }
}
