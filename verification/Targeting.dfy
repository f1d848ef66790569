/**
 Who a shot reaches: the precise geometry tests of the delivery families
 (packages/simulation/src/delivery.ts and projectile.ts), each with the box it may be
 narrowed to, and the proof that narrowing never changes who is reached.
 */
module Targeting {
  import opened Wrappers
  import opened Sorting
  import opened Geometry
  import opened Damage
  import opened World

  /** The precise tests: a ray, a swept circle, a blast disc and a swung arc. */
  datatype Probe =
    | Ray(origin: Vec2, direction: Vec2, range: real, hitRadius: real)
    | Sweep(from: Vec2, to: Vec2, radius: real)
    | Blast(center: Vec2, reach: real)
    | Swing(hilt: Vec2, aim: Vec2, length: real, halfArc: real)

  /** The distance at which a point is reached, if it is reached at all. */
  function Reach(m: Maths, probe: Probe, p: Vec2): Option<real>
  {
    match probe
    case Ray(origin, direction, range, hitRadius) =>
      RayHitDistance(m, origin, direction, p, range, hitRadius)
    case Sweep(from, to, radius) =>
      if PointToSegmentDistance(m, p, from, to) <= radius then Some(Distance(m, from, p)) else None
    case Blast(center, reach) =>
      var dist := Distance(m, center, p);
      if dist > reach then None else Some(dist)
    case Swing(hilt, aim, length, halfArc) =>
      var toTarget := SubVec(p, hilt);
      var dist := VecLength(m, toTarget);
      if dist > length then None
      else if dist > 0.0 && m.acos(Clamp(DotVec(NormalizeVec(m, toTarget), aim), -1.0, 1.0)) > halfArc then None
      else Some(dist)
  }

  function RayBox(origin: Vec2, dir: Vec2, range: real, hitRadius: real): Box
  {
    var endX, endY := origin.x + dir.x * range, origin.y + dir.y * range;
    Box(Min(origin.x, endX) - hitRadius, Min(origin.y, endY) - hitRadius,
        Max(origin.x, endX) + hitRadius, Max(origin.y, endY) + hitRadius)
  }

  /** The box handed to the spatial index for each test. */
  function Bounds(m: Maths, probe: Probe): Box
  {
    match probe
    case Ray(origin, direction, range, hitRadius) =>
      RayBox(origin, NormalizeVec(m, direction), range, hitRadius)
    case Sweep(from, to, radius) =>
      Box(Min(from.x, to.x) - radius, Min(from.y, to.y) - radius,
          Max(from.x, to.x) + radius, Max(from.y, to.y) + radius)
    case Blast(center, reach) =>
      Box(center.x - reach, center.y - reach, center.x + reach, center.y + reach)
    case Swing(hilt, _, length, _) =>
      Box(hilt.x - length, hilt.y - length, hilt.x + length, hilt.y + length)
  }

  /** A step part of the way along a displacement stays between its ends. */
  lemma PartWay(d: real, along: real, range: real, part: real, whole: real)
    requires 0.0 <= along <= range && part == d * along && whole == d * range
    ensures Min(0.0, whole) <= part <= Max(0.0, whole)
  {
    var left := range - along;
    assert whole - part == d * left;
    if d >= 0.0 {
      assert d * left >= 0.0 && d * along >= 0.0;
    } else {
      assert (-d) * left >= 0.0 && (-d) * along >= 0.0;
    }
  }

  /** A coordinate within `gap <= r` of a part-way point is in the interval of the path grown by `r`. */
  lemma AxisCovered(o: real, part: real, whole: real, r: real, gap: real, v: real)
    requires Min(0.0, whole) <= part <= Max(0.0, whole)
    requires -gap <= o + part - v <= gap <= r
    ensures Min(o, o + whole) - r <= v <= Max(o, o + whole) + r
  {
  }

  /** The interval a coordinate covers on its way, grown by the radius. */
  lemma AxisOfPath(o: real, d: real, along: real, range: real, r: real, v: real)
    requires 0.0 <= along <= range && -r <= o + d * along - v <= r
    ensures Min(o, o + d * range) - r <= v <= Max(o, o + d * range) + r
  {
    PartWay(d, along, range, d * along, d * range);
    AxisCovered(o, d * along, d * range, r, r, v);
  }

  lemma AxisNearPath(o: real, d: real, along: real, range: real, r: real, v: real, near: real, end: real)
    requires 0.0 <= along <= range && near == o + d * along && end == o + d * range && -r <= near - v <= r
    ensures Min(o, end) - r <= v <= Max(o, end) + r
  {
    AxisOfPath(o, d, along, range, r, v);
  }

  /** Points within a distance are within it on each axis. */
  lemma AxisGaps(m: Maths, q: Vec2, p: Vec2, r: real)
    requires Lawful(m) && Distance(m, q, p) <= r
    ensures -r <= q.x - p.x <= r && -r <= q.y - p.y <= r
  {
    HypotBounds(m, q.x - p.x, q.y - p.y);
  }

  lemma RayPointIsBounded(m: Maths, origin: Vec2, dir: Vec2, along: real, range: real, r: real, p: Vec2)
    requires Lawful(m) && 0.0 <= along <= range
    requires Distance(m, AddVec(origin, ScaleVec(dir, along)), p) <= r
    ensures RayBox(origin, dir, range, r).Holds(p)
  {
    NearPathIsBounded(m, origin, dir, along, range, r, p, AddVec(origin, ScaleVec(dir, along)));
  }

  lemma NearPathIsBounded(m: Maths, origin: Vec2, dir: Vec2, along: real, range: real, r: real, p: Vec2, q: Vec2)
    requires Lawful(m) && 0.0 <= along <= range && Distance(m, q, p) <= r
    requires q.x == origin.x + dir.x * along && q.y == origin.y + dir.y * along
    ensures RayBox(origin, dir, range, r).Holds(p)
  {
    AxisGaps(m, q, p, r);
    AxisNearPath(origin.x, dir.x, along, range, r, p.x, q.x, origin.x + dir.x * range);
    AxisNearPath(origin.y, dir.y, along, range, r, p.y, q.y, origin.y + dir.y * range);
  }

  lemma SweepIsBounded(m: Maths, from: Vec2, to: Vec2, radius: real, p: Vec2)
    requires Lawful(m) && PointToSegmentDistance(m, p, from, to) <= radius
    ensures Bounds(m, Sweep(from, to, radius)).Holds(p)
  {
    var s := SegmentDistanceAttained(m, p, from, to);
    NearSegmentIsBounded(m, from, SubVec(to, from), to, s, radius, p, Along(from, to, s));
  }

  lemma NearSegmentIsBounded(m: Maths, from: Vec2, step: Vec2, to: Vec2, s: real, radius: real, p: Vec2, q: Vec2)
    requires Lawful(m) && 0.0 <= s <= 1.0 && step == SubVec(to, from)
    requires q == AddVec(from, ScaleVec(step, s)) && Distance(m, p, q) <= radius
    ensures Bounds(m, Sweep(from, to, radius)).Holds(p)
  {
    AxisGaps(m, p, q, radius);
    AxisOfPath(from.x, step.x, s, 1.0, radius, p.x);
    AxisOfPath(from.y, step.y, s, 1.0, radius, p.y);
  }

  /** Every point a test accepts lies in the box the index is asked about. */
  lemma ReachIsBounded(m: Maths, probe: Probe, p: Vec2)
    requires Lawful(m) && Reach(m, probe, p).Some?
    ensures Bounds(m, probe).Holds(p)
  {
    match probe
    case Ray(origin, direction, range, hitRadius) =>
      var dir := NormalizeVec(m, direction);
      RayPointIsBounded(m, origin, dir, DotVec(SubVec(p, origin), dir), range, hitRadius, p);
    case Sweep(from, to, radius) => SweepIsBounded(m, from, to, radius, p);
    case Blast(center, _) => HypotBounds(m, center.x - p.x, center.y - p.y);
    case Swing(hilt, _, _, _) => HypotBounds(m, p.x - hilt.x, p.y - hilt.y);
  }

  // ----- who is struck -----

  datatype Struck = Struck(entity: EntityId, position: Vec2, along: real)

  /** A precise test, as a function of the position tried. */
  function Test(m: Maths, probe: Probe): Vec2 -> Option<real>
  {
    (p: Vec2) => Reach(m, probe, p)
  }

  /** The candidates a test accepts, in candidate order. */
  function Accept(test: Vec2 -> Option<real>, positions: map<EntityId, Vec2>, candidates: seq<EntityId>): seq<Struck>
  {
    if candidates == [] then []
    else
      var e, rest := candidates[0], Accept(test, positions, candidates[1..]);
      if e !in positions then rest
      else
        match test(positions[e])
        case None => rest
        case Some(along) => [Struck(e, positions[e], along)] + rest
  }

  function StruckBy(m: Maths, scene: Scene, probe: Probe): seq<Struck>
  {
    Accept(Test(m, probe), scene.positions, Candidates(scene, Bounds(m, probe)))
  }

  ghost predicate Accepts(test: Vec2 -> Option<real>, positions: map<EntityId, Vec2>, e: EntityId)
  {
    e in positions && test(positions[e]).Some?
  }

  /** Candidates the test rejects may be dropped beforehand. */
  lemma {:induction false} AcceptFiltered(test: Vec2 -> Option<real>, positions: map<EntityId, Vec2>,
      candidates: seq<EntityId>, keep: EntityId -> bool)
    requires forall e :: e in candidates && Accepts(test, positions, e) ==> keep(e)
    ensures Accept(test, positions, Filter(candidates, keep)) == Accept(test, positions, candidates)
  {
    if candidates != [] {
      AcceptFiltered(test, positions, candidates[1..], keep);
      if keep(candidates[0]) {
        assert Filter(candidates, keep)[1..] == Filter(candidates[1..], keep);
      }
    }
  }

  /** Narrowing through any faithful index reaches the same targets, in the same order, as scanning everybody. */
  lemma IndexReachesTheSame(m: Maths, scene: Scene, probe: Probe)
    requires Lawful(m) && Faithful(scene)
    ensures StruckBy(m, scene, probe) == StruckBy(m, WithoutIndex(scene), probe)
  {
    if scene.index.Some? {
      var box, test := Bounds(m, probe), Test(m, probe);
      forall p | test(p).Some? ensures box.Holds(p) {
        ReachIsBounded(m, probe, p);
      }
      NarrowedAcceptSame(test, scene, box);
    }
  }

  lemma NarrowedAcceptSame(test: Vec2 -> Option<real>, scene: Scene, box: Box)
    requires Faithful(scene) && scene.index.Some?
    requires forall p :: test(p).Some? ==> box.Holds(p)
    ensures Accept(test, scene.positions, scene.index.value(box)) == Accept(test, scene.positions, scene.entities)
  {
    var ids := scene.index.value(box);
    assert FaithfulAnswer(scene, box, ids);
    var keep := (e: EntityId) => e in ids;
    AcceptFiltered(test, scene.positions, scene.entities, keep);
    FilterAscending(scene.entities, keep);
    AscendingUnique(Filter(scene.entities, keep), ids);
  }

  lemma {:induction false} AcceptMembers(test: Vec2 -> Option<real>, positions: map<EntityId, Vec2>,
      candidates: seq<EntityId>)
    ensures forall s :: s in Accept(test, positions, candidates) <==>
              && s.entity in candidates && s.entity in positions
              && s.position == positions[s.entity] && test(s.position) == Some(s.along)
  {
    if candidates != [] {
      AcceptMembers(test, positions, candidates[1..]);
    }
  }

  // ----- blocking geometry -----

  /** A projectile-stopping blocker, grown by the body's radius, meets the segment. */
  ghost predicate Blocked(blockers: seq<Blocker>, from: Vec2, to: Vec2, expand: real)
  {
    exists b :: b in blockers && b.blocksProjectiles && SegmentMeets(from, to, Grow(b.box, expand))
  }

  method ProjectileBlocked(blockers: seq<Blocker>, from: Vec2, to: Vec2, expand: real) returns (r: bool)
    ensures r <==> Blocked(blockers, from, to, expand)
  {
    var i := 0;
    while i < |blockers|
      invariant 0 <= i <= |blockers|
      invariant !Blocked(blockers[..i], from, to, expand)
    {
      var meets := SegmentIntersectsAabb(from, to, blockers[i], expand);
      if blockers[i].blocksProjectiles && meets {
        return true;
      }
      assert blockers[..i + 1] == blockers[..i] + [blockers[i]];
      i := i + 1;
    }
    assert blockers[..i] == blockers;
    return false;
  }

  // ----- the nearest struck target -----

  /** Nearer first, then lower id. */
  predicate NotAfter(a: Struck, b: Struck)
  {
    a.along < b.along || (a.along == b.along && a.entity <= b.entity)
  }

  /** Replace the best so far only by a strictly better hit. */
  function Better(best: Option<Struck>, s: Struck): Option<Struck>
  {
    if best.None? || s.along < best.value.along || (s.along == best.value.along && s.entity < best.value.entity)
    then Some(s) else best
  }

  function NearestFrom(best: Option<Struck>, hits: seq<Struck>): Option<Struck>
    decreases hits
  {
    if hits == [] then best else NearestFrom(Better(best, hits[0]), hits[1..])
  }

  lemma {:induction false} NearestFromIsLeast(best: Option<Struck>, hits: seq<Struck>)
    ensures NearestFrom(best, hits).None? <==> best.None? && hits == []
    ensures NearestFrom(best, hits).Some? ==>
              && var n := NearestFrom(best, hits).value;
                 && (n in hits || best == Some(n))
                 && (best.Some? ==> NotAfter(n, best.value))
                 && forall s :: s in hits ==> NotAfter(n, s)
    decreases hits
  {
    if hits != [] {
      NearestFromIsLeast(Better(best, hits[0]), hits[1..]);
    }
  }

  /** Some point of the segment comes within `radius` of `p`. */
  ghost predicate ComesWithin(m: Maths, from: Vec2, to: Vec2, radius: real, p: Vec2)
  {
    exists t :: 0.0 <= t <= 1.0 && Distance(m, p, Along(from, to, t)) <= radius
  }

  /**
   No tunnelling: a sweep strikes somebody exactly when some positioned entity comes within
   the radius of some point of the path, and the one struck is the nearest to the start of
   the path, ties going to the lower id. Neither depends on the enumeration order.
   */
  lemma SweepStrikesTheNearest(m: Maths, scene: Scene, from: Vec2, to: Vec2, radius: real)
    requires Lawful(m) && Faithful(scene)
    ensures var hit := NearestFrom(None, StruckBy(m, scene, Sweep(from, to, radius)));
            && (hit.Some? <==>
                exists e :: e in scene.entities && e in scene.positions
                            && ComesWithin(m, from, to, radius, scene.positions[e]))
            && (hit.Some? ==>
                && hit.value.entity in scene.entities && hit.value.entity in scene.positions
                && hit.value.position == scene.positions[hit.value.entity]
                && ComesWithin(m, from, to, radius, hit.value.position)
                && forall e :: e in scene.entities && e in scene.positions
                               && ComesWithin(m, from, to, radius, scene.positions[e]) ==>
                     NotAfter(hit.value, Struck(e, scene.positions[e], Distance(m, from, scene.positions[e]))))
  {
    var probe := Sweep(from, to, radius);
    IndexReachesTheSame(m, scene, probe);
    var hits := Accept(Test(m, probe), scene.positions, scene.entities);
    AcceptMembers(Test(m, probe), scene.positions, scene.entities);
    NearestFromIsLeast(None, hits);
    forall p: Vec2 ensures Reach(m, probe, p).Some? <==> ComesWithin(m, from, to, radius, p) {
      SegmentDistanceIsMinimum(m, p, from, to);
    }
    forall e | e in scene.entities && e in scene.positions && ComesWithin(m, from, to, radius, scene.positions[e])
      ensures Struck(e, scene.positions[e], Distance(m, from, scene.positions[e])) in hits
    {
    }
    if hits != [] {
      assert hits[0] in hits;
    }
  }

  // ----- what the tests mean -----

  /** The cosine of the angle between the way to `p` and the aim. */
  function CosineTo(hilt: Vec2, aim: Vec2, p: Vec2, way: real): real
    requires way != 0.0
  {
    DotVec(SubVec(p, hilt), aim) / way
  }

  /** `p` is met by the probe, `along` of the way out: the four tests without their arithmetic. */
  ghost predicate Meets(m: Maths, probe: Probe, p: Vec2, along: real)
  {
    match probe
    case Ray(origin, direction, range, hitRadius) =>
      var dir := NormalizeVec(m, direction);
      0.0 <= along <= range && NearestOnLine(origin, dir, p, along)
      && Distance(m, OnLine(origin, dir, along), p) <= hitRadius
    case Sweep(from, to, radius) => ComesWithin(m, from, to, radius, p) && along == Distance(m, from, p)
    case Blast(center, reach) => along == Distance(m, center, p) <= reach
    case Swing(hilt, aim, length, halfArc) =>
      along == Distance(m, p, hilt) <= length
      && (p == hilt || (along != 0.0 && m.acos(CosineTo(hilt, aim, p, along)) <= halfArc))
  }

  lemma DotOfScaled(a: Vec2, b: Vec2, h: real)
    requires h != 0.0
    ensures DotVec(Vec2(a.x / h, a.y / h), b) == DotVec(a, b) / h
  {
    var u, v := a.x / h, a.y / h;
    assert u * h == a.x && v * h == a.y;
    DividedDot(u, v, b.x, b.y, h, DotVec(a, b));
  }

  lemma DividedDot(u: real, v: real, x: real, y: real, h: real, dot: real)
    requires h != 0.0 && dot == u * h * x + v * h * y
    ensures u * x + v * y == dot / h
  {
    var w := u * x + v * y;
    assert w * h == dot;
  }

  /** A swing of unit aim never needs its clamp. */
  lemma SwingMeetsIff(m: Maths, hilt: Vec2, aim: Vec2, length: real, halfArc: real, p: Vec2, along: real)
    requires Lawful(m) && LengthSquared(aim) == 1.0
    ensures Reach(m, Swing(hilt, aim, length, halfArc), p) == Some(along) <==>
            Meets(m, Swing(hilt, aim, length, halfArc), p, along)
  {
    var way := SubVec(p, hilt);
    var dist := VecLength(m, way);
    NormalizedIsDirection(m, way);
    assert HypotAt(m, way.x, way.y);
    if dist == 0.0 {
      SquaresVanish(way.x, way.y, way.x * way.x, way.y * way.y);
    } else {
      CosineInRange(NormalizeVec(m, way), aim);
      DotOfScaled(way, aim, dist);
      SquaredSign(dist);
    }
  }

  /** Each test accepts a point exactly when the probe meets it, and reports the way there. */
  lemma ReachMeansMeets(m: Maths, probe: Probe, p: Vec2, along: real)
    requires Lawful(m) && (probe.Swing? ==> LengthSquared(probe.aim) == 1.0)
    ensures Reach(m, probe, p) == Some(along) <==> Meets(m, probe, p, along)
  {
    match probe
    case Ray(origin, direction, range, hitRadius) => RayMeetsIff(m, origin, direction, p, range, hitRadius, along);
    case Sweep(from, to, radius) => SegmentDistanceIsMinimum(m, p, from, to);
    case Blast(center, _) =>
    case Swing(hilt, aim, length, halfArc) => SwingMeetsIff(m, hilt, aim, length, halfArc, p, along);
  }
}
