/**
 Plane geometry of the combat systems (packages/simulation/src/geometry.ts), over
 exact real arithmetic.
 */
module Geometry {
  import opened Wrappers

  datatype Vec2 = Vec2(x: real, y: real)

  /** The host's `Math` functions the geometry calls; only `hypot` has a law. */
  datatype Maths = Maths(
    hypot: (real, real) -> real,
    cos: real -> real,
    sin: real -> real,
    acos: real -> real)

  ghost predicate HypotAt(m: Maths, x: real, y: real)
  {
    m.hypot(x, y) >= 0.0 && m.hypot(x, y) * m.hypot(x, y) == x * x + y * y
  }

  ghost predicate Lawful(m: Maths)
  {
    forall x, y :: HypotAt(m, x, y)
  }

  function Min(a: real, b: real): real { if a <= b then a else b }
  function Max(a: real, b: real): real { if a >= b then a else b }

  function AddVec(a: Vec2, b: Vec2): Vec2 { Vec2(a.x + b.x, a.y + b.y) }
  function SubVec(a: Vec2, b: Vec2): Vec2 { Vec2(a.x - b.x, a.y - b.y) }
  function ScaleVec(a: Vec2, k: real): Vec2 { Vec2(a.x * k, a.y * k) }
  function DotVec(a: Vec2, b: Vec2): real { a.x * b.x + a.y * b.y }
  function LengthSquared(a: Vec2): real { a.x * a.x + a.y * a.y }
  function VecLength(m: Maths, a: Vec2): real { m.hypot(a.x, a.y) }
  function Distance(m: Maths, a: Vec2, b: Vec2): real { m.hypot(a.x - b.x, a.y - b.y) }

  function NormalizeVec(m: Maths, a: Vec2): Vec2
  {
    var length := m.hypot(a.x, a.y);
    if length == 0.0 then Vec2(1.0, 0.0) else Vec2(a.x / length, a.y / length)
  }

  function RotateVec(m: Maths, a: Vec2, radians: real): Vec2
  {
    var c, s := m.cos(radians), m.sin(radians);
    Vec2(a.x * c - a.y * s, a.x * s + a.y * c)
  }

  function ReflectVec(direction: Vec2, normal: Vec2): Vec2
  {
    var d := DotVec(direction, normal);
    Vec2(direction.x - 2.0 * d * normal.x, direction.y - 2.0 * d * normal.y)
  }

  /**
   Reflecting keeps the length, negates the component along a unit normal, keeps the one across
   it, and undoes itself.
   */
  lemma ReflectionLaws(d: Vec2, n: Vec2, across: Vec2)
    requires LengthSquared(n) == 1.0 && DotVec(n, across) == 0.0
    ensures LengthSquared(ReflectVec(d, n)) == LengthSquared(d)
    ensures DotVec(ReflectVec(d, n), n) == -DotVec(d, n)
    ensures DotVec(ReflectVec(d, n), across) == DotVec(d, across)
    ensures ReflectVec(ReflectVec(d, n), n) == d
  {
    var k, r := DotVec(d, n), ReflectVec(d, n);
    ReflectedDot(d, n, n, k, 1.0);
    ReflectedDot(d, n, across, k, 0.0);
    ReflectedSquare(d.x, d.y, n.x, n.y, k, 1.0);
    assert DotVec(r, n) == -k;
  }

  lemma ReflectedDot(d: Vec2, n: Vec2, w: Vec2, k: real, nw: real)
    requires k == DotVec(d, n) && nw == DotVec(n, w)
    ensures DotVec(ReflectVec(d, n), w) == DotVec(d, w) - 2.0 * k * nw
  {
    ReflectedPart(d.x, n.x, w.x, k);
    ReflectedPart(d.y, n.y, w.y, k);
    assert 2.0 * k * nw == 2.0 * k * (n.x * w.x) + 2.0 * k * (n.y * w.y);
  }

  lemma ReflectedPart(d: real, n: real, w: real, k: real)
    ensures (d - 2.0 * k * n) * w == d * w - 2.0 * k * (n * w)
  {
  }

  lemma ReflectedSquare(x: real, y: real, u: real, v: real, k: real, nn: real)
    requires k == x * u + y * v && nn == u * u + v * v && nn == 1.0
    ensures (x - 2.0 * k * u) * (x - 2.0 * k * u) + (y - 2.0 * k * v) * (y - 2.0 * k * v) == x * x + y * y
  {
    SquareOfPart(x, u, k);
    SquareOfPart(y, v, k);
    assert 4.0 * k * (x * u) + 4.0 * k * (y * v) == 4.0 * k * k;
    assert 4.0 * k * k * (u * u) + 4.0 * k * k * (v * v) == 4.0 * k * k * nn;
  }

  lemma SquareOfPart(x: real, u: real, k: real)
    ensures (x - 2.0 * k * u) * (x - 2.0 * k * u) == x * x - 4.0 * k * (x * u) + 4.0 * k * k * (u * u)
  {
  }

  /** The point a fraction `t` of the way along the segment `a` to `b`. */
  function Along(a: Vec2, b: Vec2, t: real): Vec2
  {
    AddVec(a, ScaleVec(SubVec(b, a), t))
  }

  lemma MulLt(k: real, a: real, b: real)
    requires k > 0.0 && a < b
    ensures k * a < k * b
  {
    assert k * (b - a) > 0.0;
  }

  // ----- boxes -----

  datatype Box = Box(minX: real, minY: real, maxX: real, maxY: real)
  {
    predicate Proper() { minX <= maxX && minY <= maxY }
    predicate Holds(p: Vec2) { minX <= p.x <= maxX && minY <= p.y <= maxY }
  }

  datatype Blocker = Blocker(box: Box, blocksProjectiles: bool, blocksVision: bool)

  function Grow(box: Box, margin: real): Box
  {
    Box(box.minX - margin, box.minY - margin, box.maxX + margin, box.maxY + margin)
  }

  /** A grown box holds exactly the points within the margin of some point of the box, axis by axis. */
  lemma GrownBoxHolds(box: Box, margin: real, p: Vec2)
    requires box.Proper() && margin >= 0.0
    ensures Grow(box, margin).Holds(p) <==>
            exists q :: box.Holds(q) && -margin <= p.x - q.x <= margin && -margin <= p.y - q.y <= margin
  {
    var q := Vec2(Min(Max(p.x, box.minX), box.maxX), Min(Max(p.y, box.minY), box.maxY));
    assert box.Holds(q);
  }

  /**
   One axis of the slab test. A moving coordinate is compared with the bounds in
   sorted order, a fixed one with the bounds as given: on a proper box the two agree.
   */
  predicate InSlab(lo: real, hi: real, delta: real, v: real)
  {
    if delta == 0.0 then lo <= v <= hi else Min(lo, hi) <= v <= Max(lo, hi)
  }

  predicate TouchesAt(a: Vec2, b: Vec2, box: Box, t: real)
  {
    && 0.0 <= t <= 1.0
    && InSlab(box.minX, box.maxX, b.x - a.x, Along(a, b, t).x)
    && InSlab(box.minY, box.maxY, b.y - a.y, Along(a, b, t).y)
  }

  /** Some point of the closed segment lies in the closed box. */
  ghost predicate SegmentMeets(a: Vec2, b: Vec2, box: Box)
  {
    exists t :: TouchesAt(a, b, box, t)
  }

  /** On a proper box `SegmentMeets` is plain containment of some point of the segment. */
  lemma ProperBoxMeeting(a: Vec2, b: Vec2, box: Box)
    requires box.Proper()
    ensures SegmentMeets(a, b, box) <==> PassesThrough(a, b, box)
  {
    forall t | 0.0 <= t <= 1.0 ensures TouchesAt(a, b, box, t) <==> box.Holds(Along(a, b, t)) {
    }
    if SegmentMeets(a, b, box) {
      var t :| TouchesAt(a, b, box, t);
      assert box.Holds(Along(a, b, t));
    }
  }

  /** The coordinate reached after a fraction `t` of a displacement `delta`. */
  function At(from: real, delta: real, t: real): real { from + delta * t }

  lemma AlongIsAt(a: Vec2, b: Vec2, t: real)
    ensures Along(a, b, t) == Vec2(At(a.x, b.x - a.x, t), At(a.y, b.y - a.y, t))
  {
  }

  lemma AtOrder(from: real, delta: real, q: real, t: real)
    ensures delta > 0.0 && q <= t ==> At(from, delta, q) <= At(from, delta, t)
    ensures delta > 0.0 && q < t ==> At(from, delta, q) < At(from, delta, t)
    ensures delta < 0.0 && q <= t ==> At(from, delta, q) >= At(from, delta, t)
    ensures delta < 0.0 && q < t ==> At(from, delta, q) > At(from, delta, t)
  {
    var gap := t - q;
    assert At(from, delta, t) - At(from, delta, q) == delta * gap;
    if delta > 0.0 && gap > 0.0 { assert delta * gap > 0.0; }
    if delta < 0.0 && gap > 0.0 { assert (-delta) * gap > 0.0; }
  }

  /** When the moving coordinate reaches `bound`. */
  function Crossing(bound: real, from: real, delta: real): real
    requires delta != 0.0
  {
    (bound - from) / delta
  }

  lemma CrossingReaches(bound: real, from: real, delta: real)
    requires delta != 0.0
    ensures At(from, delta, Crossing(bound, from, delta)) == bound
  {
  }

  /** The fractions at which a moving coordinate is in its slab form an interval. */
  lemma SlabInterval(lo: real, hi: real, from: real, delta: real, t: real)
    requires delta != 0.0
    ensures var t1, t2 := Crossing(lo, from, delta), Crossing(hi, from, delta);
            InSlab(lo, hi, delta, At(from, delta, t)) <==> Min(t1, t2) <= t <= Max(t1, t2)
  {
    var t1, t2 := Crossing(lo, from, delta), Crossing(hi, from, delta);
    CrossingReaches(lo, from, delta);
    CrossingReaches(hi, from, delta);
    AtOrder(from, delta, t1, t);
    AtOrder(from, delta, t, t1);
    AtOrder(from, delta, t2, t);
    AtOrder(from, delta, t, t2);
    AtOrder(from, delta, t1, t2);
    AtOrder(from, delta, t2, t1);
  }

  // ----- the slab method -----

  datatype Range = Range(lo: real, hi: real)

  /** Cut `range` down to the fractions at which one coordinate is in its slab. */
  function ClipAxis(range: Range, lo: real, hi: real, from: real, delta: real): Option<Range>
  {
    if delta == 0.0 then
      if from < lo || from > hi then None else Some(range)
    else
      var t1, t2 := Crossing(lo, from, delta), Crossing(hi, from, delta);
      var cut := Range(Max(range.lo, Min(t1, t2)), Min(range.hi, Max(t1, t2)));
      if cut.lo > cut.hi then None else Some(cut)
  }

  lemma ClipAxisKeeps(range: Range, lo: real, hi: real, from: real, delta: real, t: real)
    requires range.lo <= range.hi
    ensures ClipAxis(range, lo, hi, from, delta).Some? ==>
              ClipAxis(range, lo, hi, from, delta).value.lo <= ClipAxis(range, lo, hi, from, delta).value.hi
    ensures range.lo <= t <= range.hi && InSlab(lo, hi, delta, At(from, delta, t)) <==>
            && ClipAxis(range, lo, hi, from, delta).Some?
            && ClipAxis(range, lo, hi, from, delta).value.lo <= t <= ClipAxis(range, lo, hi, from, delta).value.hi
  {
    if delta == 0.0 {
      assert At(from, delta, t) == from;
    } else {
      SlabInterval(lo, hi, from, delta, t);
    }
  }

  function ClipBox(a: Vec2, b: Vec2, box: Box): Option<Range>
  {
    match ClipAxis(Range(0.0, 1.0), box.minX, box.maxX, a.x, b.x - a.x)
    case None => None
    case Some(range) => ClipAxis(range, box.minY, box.maxY, a.y, b.y - a.y)
  }

  lemma ClipBoxAt(a: Vec2, b: Vec2, box: Box, t: real)
    ensures ClipBox(a, b, box).Some? ==> ClipBox(a, b, box).value.lo <= ClipBox(a, b, box).value.hi
    ensures TouchesAt(a, b, box, t) <==>
            ClipBox(a, b, box).Some? && ClipBox(a, b, box).value.lo <= t <= ClipBox(a, b, box).value.hi
  {
    var unit := Range(0.0, 1.0);
    ClipAxisKeeps(unit, box.minX, box.maxX, a.x, b.x - a.x, t);
    AlongIsAt(a, b, t);
    var inX := ClipAxis(unit, box.minX, box.maxX, a.x, b.x - a.x);
    if inX.Some? {
      ClipAxisKeeps(inX.value, box.minY, box.maxY, a.y, b.y - a.y, t);
    }
  }

  lemma ClipBoxIsMeeting(a: Vec2, b: Vec2, box: Box)
    ensures ClipBox(a, b, box).Some? <==> SegmentMeets(a, b, box)
  {
    var clip := ClipBox(a, b, box);
    if clip.Some? {
      ClipBoxAt(a, b, box, clip.value.lo);
      assert TouchesAt(a, b, box, clip.value.lo);
    }
    if SegmentMeets(a, b, box) {
      var t :| TouchesAt(a, b, box, t);
      ClipBoxAt(a, b, box, t);
    }
  }

  /** The slab-method test answers the geometric question, whatever the box. */
  method SegmentIntersectsAabb(a: Vec2, b: Vec2, blocker: Blocker, expand: real) returns (r: bool)
    ensures r <==> SegmentMeets(a, b, Grow(blocker.box, expand))
  {
    ClipBoxIsMeeting(a, b, Grow(blocker.box, expand));
    var minX := blocker.box.minX - expand;
    var minY := blocker.box.minY - expand;
    var maxX := blocker.box.maxX + expand;
    var maxY := blocker.box.maxY + expand;
    var dx := b.x - a.x;
    var dy := b.y - a.y;
    var tMin, tMax := 0.0, 1.0;
    if dx == 0.0 {
      if a.x < minX || a.x > maxX {
        return false;
      }
    } else {
      var t1 := Crossing(minX, a.x, dx);
      var t2 := Crossing(maxX, a.x, dx);
      tMin := Max(tMin, Min(t1, t2));
      tMax := Min(tMax, Max(t1, t2));
      if tMin > tMax {
        return false;
      }
    }
    if dy == 0.0 {
      if a.y < minY || a.y > maxY {
        return false;
      }
    } else {
      var t1 := Crossing(minY, a.y, dy);
      var t2 := Crossing(maxY, a.y, dy);
      tMin := Max(tMin, Min(t1, t2));
      tMax := Min(tMax, Max(t1, t2));
      if tMin > tMax {
        return false;
      }
    }
    return true;
  }

  /** An inverted box holds no point, yet the test treats a moving coordinate as if its bounds were sorted. */
  lemma InvertedBoxIsMisjudged()
    ensures var a, b, box := Vec2(0.0, 0.0), Vec2(4.0, 0.0), Box(3.0, -1.0, 1.0, 1.0);
            ClipBox(a, b, box).Some? && forall t :: !box.Holds(Along(a, b, t))
  {
  }

  /** The test agrees with containment on every segment exactly when the box's bounds are in order. */
  lemma SlabTestIsExactIff(box: Box)
    ensures (forall a, b :: SegmentMeets(a, b, box) <==> PassesThrough(a, b, box)) <==> box.Proper()
  {
    if box.Proper() {
      forall a, b ensures SegmentMeets(a, b, box) <==> PassesThrough(a, b, box) {
        ProperBoxMeeting(a, b, box);
      }
    } else {
      var a := Vec2(Min(box.minX, box.maxX), Min(box.minY, box.maxY));
      var b := AddVec(a, Vec2(1.0, 1.0));
      assert Along(a, b, 0.0) == a;
      assert TouchesAt(a, b, box, 0.0);
      assert !PassesThrough(a, b, box);
    }
  }

  /** Some point of the closed segment is inside the box as its bounds stand. */
  ghost predicate PassesThrough(a: Vec2, b: Vec2, box: Box)
  {
    exists t :: 0.0 <= t <= 1.0 && box.Holds(Along(a, b, t))
  }

  // ----- first contact, for bounces -----

  datatype BoxEntry = BoxEntry(t: real, normal: Vec2)

  /** Which face side a coordinate crosses first: `-1` the lower bound's, `1` the upper bound's. */
  function FaceSign(lo: real, hi: real, from: real, delta: real): real
    requires delta != 0.0
  {
    if Crossing(lo, from, delta) > Crossing(hi, from, delta) then 1.0 else -1.0
  }

  function NearCrossing(lo: real, hi: real, from: real, delta: real): real
    requires delta != 0.0
  {
    Min(Crossing(lo, from, delta), Crossing(hi, from, delta))
  }

  function EntryNormal(a: Vec2, b: Vec2, box: Box): Vec2
  {
    var dx, dy := b.x - a.x, b.y - a.y;
    var late := if dx == 0.0 then 0.0 else Max(0.0, NearCrossing(box.minX, box.maxX, a.x, dx));
    if dy != 0.0 && NearCrossing(box.minY, box.maxY, a.y, dy) > late then
      Vec2(0.0, FaceSign(box.minY, box.maxY, a.y, dy))
    else if dx != 0.0 && NearCrossing(box.minX, box.maxX, a.x, dx) > 0.0 then
      Vec2(FaceSign(box.minX, box.maxX, a.x, dx), 0.0)
    else
      Vec2(-1.0, 0.0)
  }

  /** First contact of the segment with the box, and the face normal reported there. */
  function AabbEntry(a: Vec2, b: Vec2, box: Box): Option<BoxEntry>
  {
    match ClipBox(a, b, box)
    case None => None
    case Some(range) => Some(BoxEntry(range.lo, EntryNormal(a, b, box)))
  }

  method SegmentAabbEntry(a: Vec2, b: Vec2, blocker: Blocker) returns (r: Option<BoxEntry>)
    ensures r == AabbEntry(a, b, blocker.box)
  {
    var dx := b.x - a.x;
    var dy := b.y - a.y;
    var tMin, tMax := 0.0, 1.0;
    var normalIsX, normalSign := true, -1.0;
    if dx == 0.0 {
      if a.x < blocker.box.minX || a.x > blocker.box.maxX {
        return None;
      }
    } else {
      var tNear := Crossing(blocker.box.minX, a.x, dx);
      var tFar := Crossing(blocker.box.maxX, a.x, dx);
      var sign := -1.0;
      if tNear > tFar {
        tNear, tFar := tFar, tNear;
        sign := 1.0;
      }
      if tNear > tMin {
        tMin := tNear;
        normalIsX := true;
        normalSign := sign;
      }
      tMax := Min(tMax, tFar);
      if tMin > tMax {
        return None;
      }
    }
    if dy == 0.0 {
      if a.y < blocker.box.minY || a.y > blocker.box.maxY {
        return None;
      }
    } else {
      var tNear := Crossing(blocker.box.minY, a.y, dy);
      var tFar := Crossing(blocker.box.maxY, a.y, dy);
      var sign := -1.0;
      if tNear > tFar {
        tNear, tFar := tFar, tNear;
        sign := 1.0;
      }
      if tNear > tMin {
        tMin := tNear;
        normalIsX := false;
        normalSign := sign;
      }
      tMax := Min(tMax, tFar);
      if tMin > tMax {
        return None;
      }
    }
    var normal := if normalIsX then Vec2(normalSign, 0.0) else Vec2(0.0, normalSign);
    return Some(BoxEntry(tMin, normal));
  }

  /** An entry is reported exactly on contact, and it is the earliest contact. */
  lemma EntryIsFirstContact(a: Vec2, b: Vec2, box: Box)
    ensures AabbEntry(a, b, box).Some? <==> SegmentMeets(a, b, box)
    ensures AabbEntry(a, b, box).Some? ==>
              && TouchesAt(a, b, box, AabbEntry(a, b, box).value.t)
              && forall t :: TouchesAt(a, b, box, t) ==> AabbEntry(a, b, box).value.t <= t
  {
    ClipBoxIsMeeting(a, b, box);
    if ClipBox(a, b, box).Some? {
      ClipBoxAt(a, b, box, ClipBox(a, b, box).value.lo);
      forall t | TouchesAt(a, b, box, t) ensures ClipBox(a, b, box).value.lo <= t {
        ClipBoxAt(a, b, box, t);
      }
    }
  }

  /**
   A face normal opposes the motion exactly when its axis is not crossed backwards through a flat
   or inverted slab.
   */
  ghost predicate FacesMotion(lo: real, hi: real, delta: real)
  {
    (delta > 0.0 && lo <= hi) || (delta < 0.0 && lo < hi)
  }

  lemma FaceSignOpposes(lo: real, hi: real, from: real, delta: real)
    requires delta != 0.0
    ensures FaceSign(lo, hi, from, delta) * delta < 0.0 <==> FacesMotion(lo, hi, delta)
    ensures At(from, delta, NearCrossing(lo, hi, from, delta)) ==
              if FaceSign(lo, hi, from, delta) == 1.0 then hi else lo
  {
    var t1, t2 := Crossing(lo, from, delta), Crossing(hi, from, delta);
    CrossingReaches(lo, from, delta);
    CrossingReaches(hi, from, delta);
    AtOrder(from, delta, t1, t2);
    AtOrder(from, delta, t2, t1);
  }

  /** Which axis decides a contact after the start. */
  lemma EntryNormalCases(a: Vec2, b: Vec2, box: Box)
    requires AabbEntry(a, b, box).Some? && AabbEntry(a, b, box).value.t > 0.0
    ensures var entry, dx, dy := AabbEntry(a, b, box).value, b.x - a.x, b.y - a.y;
            || (dx != 0.0 && entry.normal == Vec2(FaceSign(box.minX, box.maxX, a.x, dx), 0.0)
                && entry.t == NearCrossing(box.minX, box.maxX, a.x, dx))
            || (dy != 0.0 && entry.normal == Vec2(0.0, FaceSign(box.minY, box.maxY, a.y, dy))
                && entry.t == NearCrossing(box.minY, box.maxY, a.y, dy))
  {
  }

  /**
   A contact after the start happens on a face of the box, the reported normal is that
   face's outward unit normal, and it opposes the motion exactly under `FacesMotion`.
   */
  lemma EntryNormalOpposes(a: Vec2, b: Vec2, box: Box)
    requires AabbEntry(a, b, box).Some? && AabbEntry(a, b, box).value.t > 0.0
    ensures var entry := AabbEntry(a, b, box).value;
            OnFace(box, entry.normal, Along(a, b, entry.t))
    ensures var normal := AabbEntry(a, b, box).value.normal;
            DotVec(normal, SubVec(b, a)) < 0.0 <==>
            if normal.x != 0.0 then FacesMotion(box.minX, box.maxX, b.x - a.x)
            else FacesMotion(box.minY, box.maxY, b.y - a.y)
  {
    EntryNormalCases(a, b, box);
    if AabbEntry(a, b, box).value.normal.x != 0.0 {
      NormalOnX(a, b, box);
    } else {
      NormalOnY(a, b, box);
    }
  }

  /** A contact at the very start reports the left face. */
  lemma EntryAtStart(a: Vec2, b: Vec2, box: Box)
    requires AabbEntry(a, b, box).Some? && AabbEntry(a, b, box).value.t == 0.0
    ensures AabbEntry(a, b, box).value.normal == Vec2(-1.0, 0.0)
  {
  }

  /** On a corner, met through both axes at once, the vertical face is reported. */
  lemma CornerIsVertical(a: Vec2, b: Vec2, box: Box)
    requires AabbEntry(a, b, box).Some? && AabbEntry(a, b, box).value.t > 0.0
    requires b.x != a.x && AabbEntry(a, b, box).value.t == NearCrossing(box.minX, box.maxX, a.x, b.x - a.x)
    ensures AabbEntry(a, b, box).value.normal.y == 0.0
  {
  }

  /** On a box of positive width and height the reported normal opposes the motion at every contact after the start. */
  lemma SolidBoxNormalOpposes(a: Vec2, b: Vec2, box: Box)
    requires box.minX < box.maxX && box.minY < box.maxY
    requires AabbEntry(a, b, box).Some? && AabbEntry(a, b, box).value.t > 0.0
    ensures DotVec(AabbEntry(a, b, box).value.normal, SubVec(b, a)) < 0.0
  {
    EntryNormalCases(a, b, box);
    EntryNormalOpposes(a, b, box);
  }

  /** At every contact after the start, on every segment, the reported normal opposes the motion. */
  ghost predicate AlwaysOpposes(box: Box)
  {
    forall a, b :: OpposesAt(a, b, box)
  }

  ghost predicate OpposesAt(a: Vec2, b: Vec2, box: Box)
  {
    var entry := AabbEntry(a, b, box);
    entry.Some? && entry.value.t > 0.0 ==> DotVec(entry.value.normal, SubVec(b, a)) < 0.0
  }

  /** On a proper box the normals always oppose the motion exactly when the box has width and height. */
  lemma NormalsOpposeIff(box: Box)
    requires box.Proper()
    ensures AlwaysOpposes(box) <==> box.minX < box.maxX && box.minY < box.maxY
  {
    if box.minX < box.maxX && box.minY < box.maxY {
      forall a, b ensures OpposesAt(a, b, box) {
        if AabbEntry(a, b, box).Some? && AabbEntry(a, b, box).value.t > 0.0 {
          SolidBoxNormalOpposes(a, b, box);
        }
      }
    } else if box.minX == box.maxX {
      LeftwardThroughFlat(box);
    } else {
      DownwardThroughFlat(box);
    }
  }

  lemma LeftwardThroughFlat(box: Box)
    requires box.minX == box.maxX && box.minY <= box.maxY
    ensures !OpposesAt(Vec2(box.minX + 1.0, box.minY), Vec2(box.minX - 1.0, box.minY), box)
  {
    assert Crossing(box.minX, box.minX + 1.0, -2.0) == 0.5;
  }

  lemma DownwardThroughFlat(box: Box)
    requires box.minY == box.maxY && box.minX <= box.maxX
    ensures !OpposesAt(Vec2(box.minX, box.minY + 1.0), Vec2(box.minX, box.minY - 1.0), box)
  {
    assert Crossing(box.minY, box.minY + 1.0, -2.0) == 0.5;
  }

  /** A wall without thickness, met from the right: the reported normal points along the motion. */
  lemma FlatBoxNormalFollows()
    ensures var a, b, box := Vec2(2.0, 0.0), Vec2(0.0, 0.0), Box(1.0, -1.0, 1.0, 1.0);
            AabbEntry(a, b, box) == Some(BoxEntry(0.5, Vec2(-1.0, 0.0))) && DotVec(Vec2(-1.0, 0.0), SubVec(b, a)) > 0.0
  {
    assert Crossing(1.0, 2.0, -2.0) == 0.5;
  }

  lemma NormalOnX(a: Vec2, b: Vec2, box: Box)
    requires b.x - a.x != 0.0
    ensures var normal := Vec2(FaceSign(box.minX, box.maxX, a.x, b.x - a.x), 0.0);
            && OnFace(box, normal, Along(a, b, NearCrossing(box.minX, box.maxX, a.x, b.x - a.x)))
            && (DotVec(normal, SubVec(b, a)) < 0.0 <==> FacesMotion(box.minX, box.maxX, b.x - a.x))
  {
    var dx := b.x - a.x;
    FaceSignOpposes(box.minX, box.maxX, a.x, dx);
    var s, t := FaceSign(box.minX, box.maxX, a.x, dx), NearCrossing(box.minX, box.maxX, a.x, dx);
    assert DotVec(Vec2(s, 0.0), SubVec(b, a)) == s * dx;
    assert Along(a, b, t).x == At(a.x, dx, t);
  }

  lemma NormalOnY(a: Vec2, b: Vec2, box: Box)
    requires b.y - a.y != 0.0
    ensures var normal := Vec2(0.0, FaceSign(box.minY, box.maxY, a.y, b.y - a.y));
            && OnFace(box, normal, Along(a, b, NearCrossing(box.minY, box.maxY, a.y, b.y - a.y)))
            && (DotVec(normal, SubVec(b, a)) < 0.0 <==> FacesMotion(box.minY, box.maxY, b.y - a.y))
  {
    var dy := b.y - a.y;
    FaceSignOpposes(box.minY, box.maxY, a.y, dy);
    var s, t := FaceSign(box.minY, box.maxY, a.y, dy), NearCrossing(box.minY, box.maxY, a.y, dy);
    assert DotVec(Vec2(0.0, s), SubVec(b, a)) == s * dy;
    assert Along(a, b, t).y == At(a.y, dy, t);
  }

  /** `normal` is the outward unit normal of a face of `box`, and `p` is level with that face. */
  predicate OnFace(box: Box, normal: Vec2, p: Vec2)
  {
    || (normal == Vec2(-1.0, 0.0) && p.x == box.minX)
    || (normal == Vec2(1.0, 0.0) && p.x == box.maxX)
    || (normal == Vec2(0.0, -1.0) && p.y == box.minY)
    || (normal == Vec2(0.0, 1.0) && p.y == box.maxY)
  }

  // ----- lengths -----

  lemma SquareLe(a: real, b: real)
    requires a >= 0.0 && b >= 0.0
    ensures a * a <= b * b <==> a <= b
  {
    var gap := b - a;
    assert b * b - a * a == gap * (a + b);
    if gap >= 0.0 {
      assert gap * (a + b) >= 0.0;
    } else {
      assert (-gap) * (a + b) > 0.0;
    }
  }

  /** Lengths compare as their squares do. */
  lemma HypotCompare(m: Maths, x: real, y: real, u: real, v: real)
    requires Lawful(m)
    ensures m.hypot(x, y) <= m.hypot(u, v) <==> x * x + y * y <= u * u + v * v
  {
    assert HypotAt(m, x, y) && HypotAt(m, u, v);
    SquareLe(m.hypot(x, y), m.hypot(u, v));
  }

  /** A length bounds each coordinate. */
  lemma HypotBounds(m: Maths, x: real, y: real)
    requires Lawful(m)
    ensures -m.hypot(x, y) <= x <= m.hypot(x, y)
    ensures -m.hypot(x, y) <= y <= m.hypot(x, y)
  {
    assert HypotAt(m, x, y);
    var h := m.hypot(x, y);
    assert x * x >= 0.0 && y * y >= 0.0;
    var ax := if x >= 0.0 then x else -x;
    var ay := if y >= 0.0 then y else -y;
    assert ax * ax == x * x && ay * ay == y * y;
    SquareLe(ax, h);
    SquareLe(ay, h);
  }

  lemma SameSquare(a: real, b: real, q: real)
    requires a >= 0.0 && b >= 0.0 && a * a == q && b * b == q
    ensures a == b
  {
    SquareLe(a, b);
    SquareLe(b, a);
  }

  lemma NormalizedSquare(m: Maths, a: Vec2)
    requires Lawful(m)
    ensures LengthSquared(NormalizeVec(m, a)) == 1.0
  {
    assert HypotAt(m, a.x, a.y);
    var h := m.hypot(a.x, a.y);
    if h != 0.0 {
      var u, v, hh := a.x / h, a.y / h, h * h;
      NonzeroProduct(h, h, hh);
      QuotientSquare(a.x, h, u * u, hh);
      QuotientSquare(a.y, h, v * v, hh);
      UnitSquare(u * u, v * v, hh, a.x * a.x, a.y * a.y);
    }
  }

  lemma UnitSquare(uu: real, vv: real, hh: real, xx: real, yy: real)
    requires uu * hh == xx && vv * hh == yy && hh == xx + yy && hh != 0.0
    ensures uu + vv == 1.0
  {
    Distribute(uu, vv, hh);
    CancelOne(uu + vv, hh, xx + yy);
  }

  lemma Distribute(a: real, b: real, q: real)
    ensures (a + b) * q == a * q + b * q
  {
  }

  lemma QuotientSquare(n: real, d: real, qq: real, dd: real)
    requires d != 0.0 && qq == (n / d) * (n / d) && dd == d * d
    ensures qq * dd == n * n
  {
    var q := n / d;
    assert q * d == n;
    assert qq * dd == (q * d) * (q * d);
  }

  /** A normalized vector scaled by a speed has that speed as its length. */
  lemma NormalizedLength(m: Maths, a: Vec2, speed: real)
    requires Lawful(m) && speed >= 0.0
    ensures VecLength(m, ScaleVec(NormalizeVec(m, a), speed)) == speed
  {
    var n := NormalizeVec(m, a);
    NormalizedSquare(m, a);
    var v := ScaleVec(n, speed);
    assert HypotAt(m, v.x, v.y);
    ScaledLength(n.x, n.y, speed, m.hypot(v.x, v.y), v.x, v.y);
  }

  function Abs(v: real): real { if v >= 0.0 then v else -v }

  /** Whatever the sign of the speed, its size is the length. */
  lemma NormalizedLengthIsSpeed(m: Maths, a: Vec2, speed: real)
    requires Lawful(m)
    ensures VecLength(m, ScaleVec(NormalizeVec(m, a), speed)) == Abs(speed)
  {
    var n := NormalizeVec(m, a);
    NormalizedSquare(m, a);
    var v := ScaleVec(n, speed);
    assert HypotAt(m, v.x, v.y);
    if speed >= 0.0 {
      ScaledLength(n.x, n.y, speed, m.hypot(v.x, v.y), v.x, v.y);
    } else {
      ScaledLength(-n.x, -n.y, -speed, m.hypot(v.x, v.y), v.x, v.y);
    }
  }

  lemma ScaledLength(a: real, b: real, k: real, h: real, x: real, y: real)
    requires a * a + b * b == 1.0 && k >= 0.0
    requires x == a * k && y == b * k
    requires h >= 0.0 && h * h == x * x + y * y
    ensures h == k
  {
    ScaledUnit(a, b, k, a * a, b * b, x * x, y * y);
    SameSquare(h, k, k * k);
  }

  lemma ScaledUnit(a: real, b: real, k: real, aa: real, bb: real, xx: real, yy: real)
    requires aa == a * a && bb == b * b && aa + bb == 1.0
    requires xx == (a * k) * (a * k) && yy == (b * k) * (b * k)
    ensures xx + yy == k * k
  {
    var kk := k * k;
    assert xx == aa * kk && yy == bb * kk;
    Distribute(aa, bb, kk);
  }

  lemma CancelOne(k: real, q: real, kq: real)
    requires q != 0.0 && kq == k * q && kq == q
    ensures k == 1.0
  {
    assert (k - 1.0) * q == kq - q;
  }

  // ----- rays and swept segments -----

  /** Distance along the ray at which a point is level with it, if it is in range and near enough. */
  function RayHitDistance(m: Maths, origin: Vec2, direction: Vec2, target: Vec2, range: real,
                          hitRadius: real): Option<real>
  {
    var dir := NormalizeVec(m, direction);
    var along := DotVec(SubVec(target, origin), dir);
    if along < 0.0 || along > range then None
    else
      var closest := AddVec(origin, ScaleVec(dir, along));
      if Distance(m, closest, target) > hitRadius then None else Some(along)
  }

  function ClosestFraction(point: Vec2, a: Vec2, b: Vec2): real
    requires LengthSquared(SubVec(b, a)) != 0.0
  {
    Min(1.0, Max(0.0, DotVec(SubVec(point, a), SubVec(b, a)) / LengthSquared(SubVec(b, a))))
  }

  function PointToSegmentDistance(m: Maths, point: Vec2, a: Vec2, b: Vec2): real
  {
    if LengthSquared(SubVec(b, a)) == 0.0 then Distance(m, point, a)
    else Distance(m, point, Along(a, b, ClosestFraction(point, a, b)))
  }

  function SquaredGap(point: Vec2, a: Vec2, b: Vec2, t: real): real
  {
    LengthSquared(SubVec(point, Along(a, b, t)))
  }

  /** The squared gap is a parabola in the fraction. */
  lemma GapDifference(point: Vec2, a: Vec2, b: Vec2, t: real, s: real)
    ensures SquaredGap(point, a, b, t) - SquaredGap(point, a, b, s) ==
              (t - s) * (LengthSquared(SubVec(b, a)) * (t + s) - 2.0 * DotVec(SubVec(point, a), SubVec(b, a)))
  {
    var u, v := b.x - a.x, b.y - a.y;
    var p, q := point.x - a.x, point.y - a.y;
    GapIs(p, u, t, q, v, SquaredGap(point, a, b, t), point, a, b);
    GapIs(p, u, s, q, v, SquaredGap(point, a, b, s), point, a, b);
    GapTerm(p, u, t, s);
    GapTerm(q, v, t, s);
    Distribute(u * u * (t + s) - 2.0 * (p * u), v * v * (t + s) - 2.0 * (q * v), t - s);
    Distribute(u * u, v * v, t + s);
  }

  lemma GapIs(p: real, u: real, t: real, q: real, v: real, gap: real, point: Vec2, a: Vec2, b: Vec2)
    requires gap == SquaredGap(point, a, b, t)
    requires u == b.x - a.x && v == b.y - a.y && p == point.x - a.x && q == point.y - a.y
    ensures gap == (p - u * t) * (p - u * t) + (q - v * t) * (q - v * t)
  {
  }

  lemma GapTerm(p: real, u: real, t: real, s: real)
    ensures (p - u * t) * (p - u * t) - (p - u * s) * (p - u * s) == (t - s) * (u * u * (t + s) - 2.0 * (p * u))
  {
  }

  /** The clamped fraction is the nearest point of the segment. */
  lemma ClosestFractionIsNearest(point: Vec2, a: Vec2, b: Vec2, t: real)
    requires LengthSquared(SubVec(b, a)) != 0.0 && 0.0 <= t <= 1.0
    ensures SquaredGap(point, a, b, ClosestFraction(point, a, b)) <= SquaredGap(point, a, b, t)
  {
    var l, d := LengthSquared(SubVec(b, a)), DotVec(SubVec(point, a), SubVec(b, a));
    var s := ClosestFraction(point, a, b);
    GapDifference(point, a, b, t, s);
    SquaresPositive(b.x - a.x, b.y - a.y, l);
    ClampedIsLeast(l, d, d / l, s, t);
  }

  lemma SquaresPositive(x: real, y: real, l: real)
    requires l == x * x + y * y && l != 0.0
    ensures l > 0.0
  {
    assert x * x >= 0.0 && y * y >= 0.0;
  }

  lemma ClampedIsLeast(l: real, d: real, q: real, s: real, t: real)
    requires l > 0.0 && q == d / l && s == Min(1.0, Max(0.0, q)) && 0.0 <= t <= 1.0
    ensures (t - s) * (l * (t + s) - 2.0 * d) >= 0.0
  {
    var slope := t + s - 2.0 * q;
    assert d == l * q;
    assert l * (t + s) - 2.0 * d == l * slope;
    SameSign(t - s, slope);
    SameSign(l, (t - s) * slope);
    assert (t - s) * (l * slope) == l * ((t - s) * slope);
  }

  lemma SameSign(a: real, b: real)
    requires (a >= 0.0 && b >= 0.0) || (a <= 0.0 && b <= 0.0) || a == 0.0
    ensures a * b >= 0.0
  {
  }

  lemma FlatSegment(a: Vec2, b: Vec2)
    requires LengthSquared(SubVec(b, a)) == 0.0
    ensures a == b
  {
    var u, v := b.x - a.x, b.y - a.y;
    SquaresVanish(u, v, u * u, v * v);
  }

  lemma AlongFlat(a: Vec2, t: real)
    ensures Along(a, a, t) == a
  {
  }

  lemma SegmentDistanceAttained(m: Maths, point: Vec2, a: Vec2, b: Vec2) returns (s: real)
    ensures 0.0 <= s <= 1.0
    ensures PointToSegmentDistance(m, point, a, b) == Distance(m, point, Along(a, b, s))
  {
    if LengthSquared(SubVec(b, a)) == 0.0 {
      s := 0.0;
      FlatSegment(a, b);
      AlongFlat(a, s);
    } else {
      s := ClosestFraction(point, a, b);
    }
  }

  lemma SegmentDistanceLeast(m: Maths, point: Vec2, a: Vec2, b: Vec2, t: real)
    requires Lawful(m) && 0.0 <= t <= 1.0
    ensures PointToSegmentDistance(m, point, a, b) <= Distance(m, point, Along(a, b, t))
  {
    if LengthSquared(SubVec(b, a)) == 0.0 {
      FlatSegment(a, b);
      AlongFlat(a, t);
    } else {
      ClosestFractionIsNearest(point, a, b, t);
      var p, q := Along(a, b, ClosestFraction(point, a, b)), Along(a, b, t);
      HypotCompare(m, point.x - p.x, point.y - p.y, point.x - q.x, point.y - q.y);
    }
  }

  /** `PointToSegmentDistance` is the minimum distance over the whole segment. */
  lemma SegmentDistanceIsMinimum(m: Maths, point: Vec2, a: Vec2, b: Vec2)
    requires Lawful(m)
    ensures forall t :: 0.0 <= t <= 1.0 ==> PointToSegmentDistance(m, point, a, b) <= Distance(m, point, Along(a, b, t))
    ensures exists t :: 0.0 <= t <= 1.0 && PointToSegmentDistance(m, point, a, b) == Distance(m, point, Along(a, b, t))
  {
    var s := SegmentDistanceAttained(m, point, a, b);
    forall t | 0.0 <= t <= 1.0
      ensures PointToSegmentDistance(m, point, a, b) <= Distance(m, point, Along(a, b, t))
    {
      SegmentDistanceLeast(m, point, a, b, t);
    }
  }

  // ----- the foot of a point on a ray -----

  /** The point of the line from `origin` along `dir` at parameter `u`. */
  function OnLine(origin: Vec2, dir: Vec2, u: real): Vec2
  {
    AddVec(origin, ScaleVec(dir, u))
  }

  /** The squared distance of `target` from the points of the line. */
  function GapTo(origin: Vec2, dir: Vec2, target: Vec2): real -> real
  {
    (u: real) => LengthSquared(SubVec(target, OnLine(origin, dir, u)))
  }

  /** No point of the whole line is nearer to `target` than the one at `along`. */
  ghost predicate NearestOnLine(origin: Vec2, dir: Vec2, target: Vec2, along: real)
  {
    LeastAt(GapTo(origin, dir, target), along)
  }

  ghost predicate LeastAt(gap: real -> real, along: real)
  {
    forall u :: gap(along) <= gap(u)
  }

  function Squared(v: real): real { v * v }

  lemma SquaredSign(v: real)
    ensures Squared(v) >= 0.0 && (Squared(v) <= 0.0 <==> v == 0.0)
  {
    if v != 0.0 {
      NonzeroProduct(v, v, v * v);
    }
  }

  /** A gap that grows with the square of the way from its foot is least there and nowhere else. */
  lemma LeastAtFoot(gap: real -> real, foot: real, along: real)
    requires forall u :: gap(u) == gap(foot) + Squared(u - foot)
    ensures LeastAt(gap, along) <==> along == foot
  {
    SquaredSign(along - foot);
    forall u ensures gap(foot) <= gap(u) {
      SquaredSign(u - foot);
    }
    assert LeastAt(gap, along) ==> gap(along) <= gap(foot);
  }

  /** The gap to a line of unit direction grows with the square of the way from the foot. */
  lemma LineGap(origin: Vec2, dir: Vec2, target: Vec2, u: real)
    requires LengthSquared(dir) == 1.0
    ensures var gap, along := GapTo(origin, dir, target), DotVec(SubVec(target, origin), dir);
            gap(u) == gap(along) + Squared(u - along)
  {
    var end, along := AddVec(origin, dir), DotVec(SubVec(target, origin), dir);
    var gap := GapTo(origin, dir, target);
    LineOfSegment(origin, dir, target, u);
    LineOfSegment(origin, dir, target, along);
    GapDifference(target, origin, end, u, along);
    SquareOfDifference(gap(u), gap(along), u, along, LengthSquared(SubVec(end, origin)),
                       DotVec(SubVec(target, origin), SubVec(end, origin)));
  }

  lemma LineOfSegment(origin: Vec2, dir: Vec2, target: Vec2, u: real)
    ensures SubVec(AddVec(origin, dir), origin) == dir
    ensures SquaredGap(target, origin, AddVec(origin, dir), u) == GapTo(origin, dir, target)(u)
  {
    assert SubVec(AddVec(origin, dir), origin) == dir;
  }

  lemma SquareOfDifference(g: real, h: real, u: real, a: real, l: real, d: real)
    requires g - h == (u - a) * (l * (u + a) - 2.0 * d) && l == 1.0 && d == a
    ensures g == h + Squared(u - a)
  {
    assert l * (u + a) - 2.0 * d == u - a;
  }

  /** A line of unit direction has exactly one point nearest to the target: its projection. */
  lemma ProjectionIsNearest(origin: Vec2, dir: Vec2, target: Vec2, along: real)
    requires LengthSquared(dir) == 1.0
    ensures NearestOnLine(origin, dir, target, along) <==> along == DotVec(SubVec(target, origin), dir)
  {
    var gap, foot := GapTo(origin, dir, target), DotVec(SubVec(target, origin), dir);
    forall u ensures gap(u) == gap(foot) + Squared(u - foot) {
      LineGap(origin, dir, target, u);
    }
    LeastAtFoot(gap, foot, along);
  }

  /**
   A ray meets a target exactly when the point of its line nearest to the target is within its range
   and within the hit radius of the target; the way reported is the way to that point.
   */
  lemma RayMeetsIff(m: Maths, origin: Vec2, direction: Vec2, target: Vec2, range: real, hitRadius: real, along: real)
    requires Lawful(m)
    ensures var dir := NormalizeVec(m, direction);
            RayHitDistance(m, origin, direction, target, range, hitRadius) == Some(along) <==>
            0.0 <= along <= range && NearestOnLine(origin, dir, target, along)
            && Distance(m, OnLine(origin, dir, along), target) <= hitRadius
  {
    var dir := NormalizeVec(m, direction);
    NormalizedSquare(m, direction);
    ProjectionIsNearest(origin, dir, target, along);
  }

  // ----- directions -----

  /** Normalising gives a unit vector along the old one, and the x axis for a zero vector. */
  lemma NormalizedIsDirection(m: Maths, a: Vec2)
    requires Lawful(m)
    ensures LengthSquared(NormalizeVec(m, a)) == 1.0
    ensures ScaleVec(NormalizeVec(m, a), VecLength(m, a)) == a
    ensures a == Vec2(0.0, 0.0) ==> NormalizeVec(m, a) == Vec2(1.0, 0.0)
  {
    NormalizedSquare(m, a);
    assert HypotAt(m, a.x, a.y);
    var h := VecLength(m, a);
    if h == 0.0 {
      SquaresVanish(a.x, a.y, a.x * a.x, a.y * a.y);
    } else {
      assert a.x / h * h == a.x && a.y / h * h == a.y;
    }
    if a == Vec2(0.0, 0.0) {
      SquaredSign(h);
    }
  }

  /** Turning has the cosine of the angle as its part along the old vector and the sine across it. */
  lemma RotationTurns(m: Maths, a: Vec2, radians: real)
    ensures var r := RotateVec(m, a, radians);
            && DotVec(a, r) == m.cos(radians) * LengthSquared(a)
            && DotVec(Vec2(-a.y, a.x), r) == m.sin(radians) * LengthSquared(a)
  {
    TurnedParts(a.x, a.y, m.cos(radians), m.sin(radians));
  }

  lemma TurnedParts(x: real, y: real, c: real, s: real)
    ensures x * (x * c - y * s) + y * (x * s + y * c) == c * (x * x + y * y)
    ensures -y * (x * c - y * s) + x * (x * s + y * c) == s * (x * x + y * y)
  {
  }

  /** The cosine between unit vectors lies between -1 and 1. */
  lemma CosineInRange(a: Vec2, b: Vec2)
    requires LengthSquared(a) == 1.0 && LengthSquared(b) == 1.0
    ensures -1.0 <= DotVec(a, b) <= 1.0
  {
    CosineBound(a.x, a.y, b.x, b.y);
    CosineBound(-a.x, -a.y, b.x, b.y);
  }

  lemma CosineBound(x: real, y: real, u: real, v: real)
    requires x * x + y * y == 1.0 && u * u + v * v == 1.0
    ensures x * u + y * v <= 1.0
  {
    var p, q := x - u, y - v;
    assert p * p == x * x - 2.0 * (x * u) + u * u;
    assert q * q == y * y - 2.0 * (y * v) + v * v;
    assert p * p >= 0.0 && q * q >= 0.0;
  }

  lemma SquaresVanish(x: real, y: real, xx: real, yy: real)
    requires xx == x * x && yy == y * y && xx + yy == 0.0
    ensures x == 0.0 && y == 0.0
  {
    assert xx >= 0.0 && yy >= 0.0;
    if x != 0.0 { NonzeroProduct(x, x, xx); }
    if y != 0.0 { NonzeroProduct(y, y, yy); }
  }

  lemma NonzeroProduct(a: real, b: real, q: real)
    requires q == a * b && a != 0.0 && b != 0.0
    ensures q != 0.0
  {
  }
}
