/**
 Farthest-first spawn ordering (packages/plugin-battle-royale/src/spawn-layout.ts) and its
 approximation guarantee.
 */
module SpawnLayout {
  import opened Wrappers
  import opened Sorting
  import Geometry

  datatype SpawnPoint = SpawnPoint(x: real, y: real, team: Option<string>)

  /** A comparator: negative, zero or positive as its first argument sorts before, with or after its second. */
  type Comparator = (SpawnPoint, SpawnPoint) -> real

  ghost predicate Consistent(compare: Comparator)
  {
    && (forall p, q :: compare(p, q) <= 0.0 || compare(q, p) <= 0.0)
    && (forall p, q, r :: compare(p, q) <= 0.0 && compare(q, r) <= 0.0 ==> compare(p, r) <= 0.0)
    && (forall p, q :: compare(p, q) < 0.0 <==> compare(q, p) > 0.0)
  }

  function NotAfterIn(compare: Comparator): (SpawnPoint, SpawnPoint) -> bool
  {
    (p: SpawnPoint, q: SpawnPoint) => compare(p, q) <= 0.0
  }

  function DistanceSq(left: SpawnPoint, right: SpawnPoint): real
  {
    var dx, dy := left.x - right.x, left.y - right.y;
    dx * dx + dy * dy
  }

  /** The measure is the square of the distance in the plane. */
  lemma DistanceIsSquared(m: Geometry.Maths, p: SpawnPoint, q: SpawnPoint)
    requires Geometry.Lawful(m)
    ensures var d := Geometry.Distance(m, Geometry.Vec2(p.x, p.y), Geometry.Vec2(q.x, q.y));
            d >= 0.0 && DistanceSq(p, q) == d * d
  {
    assert Geometry.HypotAt(m, p.x - q.x, p.y - q.y);
  }

  /** `d` is the least squared distance from `p` to the selected points. */
  ghost predicate IsGap(p: SpawnPoint, selected: seq<SpawnPoint>, d: real)
  {
    && (forall i :: 0 <= i < |selected| ==> d <= DistanceSq(p, selected[i]))
    && (exists i :: 0 <= i < |selected| && d == DistanceSq(p, selected[i]))
  }

  method MinDistanceSqToSelected(p: SpawnPoint, selected: seq<SpawnPoint>) returns (d: real)
    requires selected != []
    ensures IsGap(p, selected, d)
  {
    d := DistanceSq(p, selected[0]);
    var i := 1;
    while i < |selected|
      invariant 1 <= i <= |selected|
      invariant forall j :: 0 <= j < i ==> d <= DistanceSq(p, selected[j])
      invariant exists j :: 0 <= j < i && d == DistanceSq(p, selected[j])
    {
      if DistanceSq(p, selected[i]) < d {
        d := DistanceSq(p, selected[i]);
      }
      i := i + 1;
    }
  }

  /** `p` is at least as far from the selected points as `q`, and not after it when they tie. */
  ghost predicate Preferred(compare: Comparator, selected: seq<SpawnPoint>, p: SpawnPoint, q: SpawnPoint)
  {
    forall d, e :: IsGap(p, selected, d) && IsGap(q, selected, e) ==> d > e || (d == e && compare(p, q) <= 0.0)
  }

  /** Each point after the first is the preferred one among those still unplaced. */
  ghost predicate FarthestFirst(compare: Comparator, ordered: seq<SpawnPoint>, remaining: seq<SpawnPoint>)
  {
    && (forall k, j :: 1 <= k < j < |ordered| ==> Preferred(compare, ordered[..k], ordered[k], ordered[j]))
    && (forall k, q :: 1 <= k < |ordered| && q in remaining ==> Preferred(compare, ordered[..k], ordered[k], q))
  }

  lemma GapUnique(p: SpawnPoint, selected: seq<SpawnPoint>, d: real, e: real)
    requires IsGap(p, selected, d) && IsGap(p, selected, e)
    ensures d == e
  {
  }

  /** The index of the preferred point among those remaining. */
  method PickFarthest(remaining: seq<SpawnPoint>, ordered: seq<SpawnPoint>, compare: Comparator) returns (best: nat)
    requires remaining != [] && ordered != [] && Consistent(compare)
    ensures best < |remaining|
    ensures forall j :: 0 <= j < |remaining| ==> Preferred(compare, ordered, remaining[best], remaining[j])
  {
    best := 0;
    var bestDistance: Option<real> := None;
    var index := 0;
    while index < |remaining|
      invariant 0 <= index <= |remaining| && best < |remaining|
      invariant bestDistance.None? <==> index == 0
      invariant index > 0 ==> best < index && IsGap(remaining[best], ordered, bestDistance.value)
      invariant forall j :: 0 <= j < index ==> Preferred(compare, ordered, remaining[best], remaining[j])
    {
      var candidate := remaining[index];
      var d := MinDistanceSqToSelected(candidate, ordered);
      ghost var was := remaining[best];
      if bestDistance.None? || d > bestDistance.value
          || (d == bestDistance.value && compare(candidate, remaining[best]) < 0.0) {
        forall j | 0 <= j <= index ensures Preferred(compare, ordered, candidate, remaining[j]) {
          Prefer(compare, ordered, candidate, d, was, remaining[j], bestDistance, j < index);
        }
        bestDistance := Some(d);
        best := index;
      } else {
        forall e, f | IsGap(was, ordered, e) && IsGap(candidate, ordered, f) ensures e > f
            || (e == f && compare(was, candidate) <= 0.0) {
          GapUnique(was, ordered, e, bestDistance.value);
          GapUnique(candidate, ordered, f, d);
        }
        assert Preferred(compare, ordered, was, candidate);
      }
      index := index + 1;
    }
  }

  /** A candidate that beats the best so far is preferred to everything the best was preferred to. */
  lemma Prefer(compare: Comparator, ordered: seq<SpawnPoint>, candidate: SpawnPoint, d: real, best: SpawnPoint,
               other: SpawnPoint, bestDistance: Option<real>, earlier: bool)
    requires Consistent(compare) && IsGap(candidate, ordered, d)
    requires earlier ==> bestDistance.Some? && IsGap(best, ordered, bestDistance.value)
                         && Preferred(compare, ordered, best, other)
                         && (d > bestDistance.value || (d == bestDistance.value && compare(candidate, best) < 0.0))
    requires !earlier ==> other == candidate
    ensures Preferred(compare, ordered, candidate, other)
  {
    forall a, b | IsGap(candidate, ordered, a) && IsGap(other, ordered, b) ensures a > b
        || (a == b && compare(candidate, other) <= 0.0) {
      GapUnique(candidate, ordered, a, d);
      if !earlier {
        GapUnique(candidate, ordered, a, b);
      }
    }
  }

  /** Greedy farthest-first order. */
  method SpreadOrderSpawnPoints(points: seq<SpawnPoint>, compare: Comparator) returns (ordered: seq<SpawnPoint>)
    requires Consistent(compare)
    ensures multiset(ordered) == multiset(points)
    ensures points != [] ==> ordered != [] && ordered[0] == SortBy(points, NotAfterIn(compare))[0]
    ensures FarthestFirst(compare, ordered, [])
  {
    var remaining := SortBy(points, NotAfterIn(compare));
    SortMultiset(points, NotAfterIn(compare));
    if remaining == [] {
      return [];
    }
    ordered := [remaining[0]];
    assert remaining == [remaining[0]] + remaining[1..];
    remaining := remaining[1..];
    while |remaining| > 0
      invariant ordered != [] && ordered[0] == SortBy(points, NotAfterIn(compare))[0]
      invariant multiset(ordered) + multiset(remaining) == multiset(points)
      invariant FarthestFirst(compare, ordered, remaining)
      decreases |remaining|
    {
      var best := PickFarthest(remaining, ordered, compare);
      TakeFarthest(compare, ordered, remaining, best);
      TakeMultiset(ordered, remaining, best);
      ordered := ordered + [remaining[best]];
      remaining := remaining[..best] + remaining[best + 1..];
    }
  }

  lemma TakeMultiset(ordered: seq<SpawnPoint>, remaining: seq<SpawnPoint>, best: nat)
    requires best < |remaining|
    ensures multiset(ordered + [remaining[best]]) + multiset(remaining[..best] + remaining[best + 1..]) ==
            multiset(ordered) + multiset(remaining)
  {
    assert remaining == remaining[..best] + [remaining[best]] + remaining[best + 1..];
  }

  lemma TakeFarthest(compare: Comparator, ordered: seq<SpawnPoint>, remaining: seq<SpawnPoint>, best: nat)
    requires ordered != [] && FarthestFirst(compare, ordered, remaining) && best < |remaining|
    requires forall j :: 0 <= j < |remaining| ==> Preferred(compare, ordered, remaining[best], remaining[j])
    ensures FarthestFirst(compare, ordered + [remaining[best]], remaining[..best] + remaining[best + 1..])
  {
    var grown, left := ordered + [remaining[best]], remaining[..best] + remaining[best + 1..];
    var n := |ordered|;
    assert remaining[best] in remaining;
    forall k, j | 1 <= k < j < |grown| ensures Preferred(compare, grown[..k], grown[k], grown[j]) {
      assert grown[..k] == ordered[..k];
    }
    forall k, q | 1 <= k < |grown| && q in left ensures Preferred(compare, grown[..k], grown[k], q) {
      assert q in remaining;
      if k == n {
        assert grown[..k] == ordered;
        var j :| 0 <= j < |remaining| && remaining[j] == q;
      } else {
        assert grown[..k] == ordered[..k];
      }
    }
  }

  // ----- the approximation guarantee -----

  /** `r` is the least squared distance between two of the points. */
  ghost predicate IsSpread(points: seq<SpawnPoint>, r: real)
  {
    && (forall i, j :: 0 <= i < j < |points| ==> r <= DistanceSq(points[i], points[j]))
    && (exists i, j :: 0 <= i < j < |points| && r == DistanceSq(points[i], points[j]))
  }

  lemma Symmetric(p: SpawnPoint, q: SpawnPoint)
    ensures DistanceSq(p, q) == DistanceSq(q, p) >= 0.0
  {
    var dx, dy := p.x - q.x, p.y - q.y;
    assert q.x - p.x == -dx && q.y - p.y == -dy;
    assert (-dx) * (-dx) == dx * dx && (-dy) * (-dy) == dy * dy;
  }

  /** Two points near a common centre are near each other: squared distances at most quadruple. */
  lemma Relay(p: SpawnPoint, q: SpawnPoint, c: SpawnPoint, r: real)
    requires DistanceSq(p, c) <= r && DistanceSq(q, c) <= r
    ensures DistanceSq(p, q) <= 4.0 * r
  {
    var a, b, u := p.x - c.x, q.x - c.x, p.x - q.x;
    var e, f, v := p.y - c.y, q.y - c.y, p.y - q.y;
    RelayCore(a, b, u, e, f, v, a * a, b * b, u * u, e * e, f * f, v * v, r);
  }

  lemma RelayCore(a: real, b: real, u: real, e: real, f: real, v: real, aa: real, bb: real, uu: real, ee: real,
                  ff: real, vv: real, r: real)
    requires u == a - b && aa == a * a && bb == b * b && uu == u * u
    requires v == e - f && ee == e * e && ff == f * f && vv == v * v
    requires aa + ee <= r && bb + ff <= r
    ensures uu + vv <= 4.0 * r
  {
    RelayAxis(a, b, u, aa, bb, uu);
    RelayAxis(e, f, v, ee, ff, vv);
  }

  lemma RelayAxis(a: real, b: real, u: real, aa: real, bb: real, uu: real)
    requires u == a - b && aa == a * a && bb == b * b && uu == u * u
    ensures uu <= 2.0 * aa + 2.0 * bb
  {
    var s := a + b;
    var ss := s * s;
    assert ss >= 0.0;
    assert ss == aa + 2.0 * (a * b) + bb;
    assert uu == aa - 2.0 * (a * b) + bb;
  }

  /** The least squared distance from a point to a nonempty list. */
  ghost function Gap(p: SpawnPoint, selected: seq<SpawnPoint>): (d: real)
    requires selected != []
    ensures IsGap(p, selected, d)
  {
    if |selected| == 1 then DistanceSq(p, selected[0])
    else
      var rest := Gap(p, selected[1..]);
      var first := DistanceSq(p, selected[0]);
      assert forall i :: 1 <= i < |selected| ==> selected[i] == selected[1..][i - 1];
      if first <= rest then first else rest
  }

  /** The gap only shrinks as more points are selected. */
  lemma GapShrinks(p: SpawnPoint, ordered: seq<SpawnPoint>, j: nat, k: nat)
    requires 1 <= j <= k <= |ordered|
    ensures Gap(p, ordered[..k]) <= Gap(p, ordered[..j])
  {
    var i :| 0 <= i < j && Gap(p, ordered[..j]) == DistanceSq(p, ordered[..j][i]);
    assert ordered[..k][i] == ordered[..j][i];
  }

  /** Insertion distances never increase. */
  lemma InsertionDistancesDescend(compare: Comparator, ordered: seq<SpawnPoint>, j: nat, k: nat)
    requires FarthestFirst(compare, ordered, []) && 1 <= j <= k < |ordered|
    ensures Gap(ordered[k], ordered[..k]) <= Gap(ordered[j], ordered[..j])
  {
    GapShrinks(ordered[k], ordered, j, k);
    if j < k {
      assert Preferred(compare, ordered[..j], ordered[j], ordered[k]);
    }
  }

  /** The spread of a prefix is the insertion distance of its last point. */
  lemma SpreadIsLastInsertion(compare: Comparator, ordered: seq<SpawnPoint>, k: nat)
    requires FarthestFirst(compare, ordered, []) && 2 <= k <= |ordered|
    ensures IsSpread(ordered[..k], Gap(ordered[k - 1], ordered[..k - 1]))
  {
    var prefix, r := ordered[..k], Gap(ordered[k - 1], ordered[..k - 1]);
    forall i, j | 0 <= i < j < k ensures r <= DistanceSq(prefix[i], prefix[j]) {
      InsertionDistancesDescend(compare, ordered, j, k - 1);
      assert ordered[..j][i] == prefix[i];
      assert Gap(ordered[j], ordered[..j]) <= DistanceSq(ordered[j], ordered[..j][i]);
      Symmetric(prefix[i], prefix[j]);
    }
    var i :| 0 <= i < k - 1 && r == DistanceSq(ordered[k - 1], ordered[..k - 1][i]);
    Symmetric(ordered[k - 1], ordered[i]);
    assert prefix[i] == ordered[i] && prefix[k - 1] == ordered[k - 1];
  }

  /** Every point of the input is within the last insertion distance of some earlier point. */
  lemma Covered(compare: Comparator, ordered: seq<SpawnPoint>, k: nat, p: SpawnPoint) returns (c: nat)
    requires FarthestFirst(compare, ordered, []) && 2 <= k <= |ordered| && p in ordered
    ensures c < k - 1 && DistanceSq(p, ordered[c]) <= Gap(ordered[k - 1], ordered[..k - 1])
  {
    var r := Gap(ordered[k - 1], ordered[..k - 1]);
    var at :| 0 <= at < |ordered| && ordered[at] == p;
    if at < k - 1 {
      c := at;
      var i :| 0 <= i < k - 1 && r == DistanceSq(ordered[k - 1], ordered[..k - 1][i]);
      Symmetric(ordered[k - 1], ordered[i]);
      assert DistanceSq(p, p) == 0.0;
    } else {
      if at > k - 1 {
        assert Preferred(compare, ordered[..k - 1], ordered[k - 1], ordered[at]);
      }
      var g := Gap(p, ordered[..k - 1]);
      c :| 0 <= c < k - 1 && g == DistanceSq(p, ordered[..k - 1][c]);
    }
  }

  /** Pigeonhole: more labels than values repeats one. */
  lemma {:induction false} Pigeonhole(labels: seq<nat>, values: nat) returns (i: nat, j: nat)
    requires |labels| > values && forall k :: 0 <= k < |labels| ==> labels[k] < values
    ensures i < j < |labels| && labels[i] == labels[j]
    decreases values
  {
    var last := |labels| - 1;
    if a :| 0 <= a < last && labels[a] == labels[last] {
      return a, last;
    }
    var top := values - 1;
    var folded := seq(last, k requires 0 <= k < last => if labels[k] == top then labels[last] else labels[k]);
    i, j := Pigeonhole(folded, top);
  }

  /**
   Every prefix of at least two points of the farthest-first order is within a factor of two
   of the best spread: any choice of as many input points contains two whose squared distance
   is at most four times the prefix's least squared distance.
   */
  lemma PrefixIsTwoApproximation(compare: Comparator, ordered: seq<SpawnPoint>, k: nat, choice: seq<SpawnPoint>,
                                 r: real)
    requires FarthestFirst(compare, ordered, []) && 2 <= k <= |ordered|
    requires IsSpread(ordered[..k], r)
    requires |choice| == k && forall p :: p in choice ==> p in ordered
    ensures exists i, j :: 0 <= i < j < k && DistanceSq(choice[i], choice[j]) <= 4.0 * r
  {
    SpreadIsLastInsertion(compare, ordered, k);
    SpreadUnique(ordered[..k], r, Gap(ordered[k - 1], ordered[..k - 1]));
    var centres := AssignCentres(compare, ordered, k, choice);
    var i, j := Pigeonhole(centres, k - 1);
    assert Near(choice[i], ordered[centres[i]], r) && Near(choice[j], ordered[centres[j]], r);
    Relay(choice[i], choice[j], ordered[centres[i]], r);
  }

  predicate Near(p: SpawnPoint, c: SpawnPoint, r: real)
  {
    DistanceSq(p, c) <= r
  }

  /** Each chosen point is near one of the first `k - 1` points of the order. */
  lemma {:induction false} AssignCentres(compare: Comparator, ordered: seq<SpawnPoint>, k: nat,
      choice: seq<SpawnPoint>) returns (centres: seq<nat>)
    requires FarthestFirst(compare, ordered, []) && 2 <= k <= |ordered|
    requires forall p :: p in choice ==> p in ordered
    ensures |centres| == |choice|
    ensures forall i :: 0 <= i < |choice| ==>
              centres[i] < k - 1 && Near(choice[i], ordered[centres[i]], Gap(ordered[k - 1], ordered[..k - 1]))
    decreases choice
  {
    if choice == [] {
      return [];
    }
    var c := Covered(compare, ordered, k, choice[0]);
    var rest := AssignCentres(compare, ordered, k, choice[1..]);
    centres := [c] + rest;
    forall i | 0 <= i < |choice|
      ensures centres[i] < k - 1 && Near(choice[i], ordered[centres[i]], Gap(ordered[k - 1], ordered[..k - 1]))
    {
      assert i > 0 ==> choice[i] == choice[1..][i - 1] && centres[i] == rest[i - 1];
    }
  }

  lemma SpreadUnique(points: seq<SpawnPoint>, r: real, s: real)
    requires IsSpread(points, r) && IsSpread(points, s)
    ensures r == s
  {
    var i, j :| 0 <= i < j < |points| && r == DistanceSq(points[i], points[j]);
    var a, b :| 0 <= a < b < |points| && s == DistanceSq(points[a], points[b]);
  }

  // ----- the order is determined -----

  lemma SameRemaining(a: seq<SpawnPoint>, b: seq<SpawnPoint>, k: nat)
    requires multiset(a) == multiset(b) && k <= |a| && k <= |b| && a[..k] == b[..k]
    ensures multiset(a[k..]) == multiset(b[k..])
  {
    assert a == a[..k] + a[k..] && b == b[..k] + b[k..];
    assert multiset(a) == multiset(a[..k]) + multiset(a[k..]) && multiset(b) == multiset(b[..k]) + multiset(b[k..]);
    assert multiset(a[k..]) == multiset(a) - multiset(a[..k]) && multiset(b[k..]) == multiset(b) - multiset(b[..k]);
  }

  lemma NextIsSame(compare: Comparator, a: seq<SpawnPoint>, b: seq<SpawnPoint>, k: nat)
    requires multiset(a) == multiset(b) && 1 <= k < |a| && k < |b| && a[..k] == b[..k]
    requires FarthestFirst(compare, a, []) && FarthestFirst(compare, b, [])
    requires TiesAreEqual(a, NotAfterIn(compare))
    ensures a[k] == b[k]
  {
    SameRemaining(a, b, k);
    assert a[k] == a[k..][0] && b[k] == b[k..][0];
    assert a[k] in multiset(b[k..]) && b[k] in multiset(a[k..]);
    var i :| k <= i < |b| && b[i] == a[k];
    var j :| k <= j < |a| && a[j] == b[k];
    if i > k && j > k {
      assert Preferred(compare, b[..k], b[k], b[i]);
      assert Preferred(compare, a[..k], a[k], a[j]);
      var d, e := Gap(a[k], a[..k]), Gap(b[k], a[..k]);
      assert NotAfterIn(compare)(a[k], b[k]) && NotAfterIn(compare)(b[k], a[k]);
      assert a[k] in a && a[j] in a && b[k] == a[j];
      assert a[k] == a[j];
    }
  }

  /** The order depends only on which points there are and how ties compare, not on arrival order. */
  lemma {:induction false} FarthestFirstIsUnique(compare: Comparator, a: seq<SpawnPoint>, b: seq<SpawnPoint>, k: nat)
    requires multiset(a) == multiset(b) && k <= |a|
    requires FarthestFirst(compare, a, []) && FarthestFirst(compare, b, [])
    requires a != [] ==> b != [] && a[0] == b[0]
    requires TiesAreEqual(a, NotAfterIn(compare))
    ensures |a| == |b| && a[..k] == b[..k]
  {
    assert |multiset(a)| == |multiset(b)|;
    if k > 0 {
      FarthestFirstIsUnique(compare, a, b, k - 1);
      if k > 1 {
        NextIsSame(compare, a, b, k - 1);
      }
      assert a[..k] == a[..k - 1] + [a[k - 1]] && b[..k] == b[..k - 1] + [b[k - 1]];
    }
  }

  // ----- clearance -----

  datatype ClearancePair = ClearancePair(left: SpawnPoint, right: SpawnPoint, distance: real)

  /** The host's square root. */
  ghost predicate RootAt(root: real -> real, v: real)
  {
    v >= 0.0 ==> root(v) >= 0.0 && root(v) * root(v) == v
  }

  lemma RootOrder(root: real -> real, v: real, w: real)
    requires RootAt(root, v) && RootAt(root, w) && v >= 0.0 && w >= 0.0
    ensures root(v) <= root(w) <==> v <= w
  {
    Geometry.SquareLe(root(v), root(w));
  }

  /** The pair of points at `i` and `j` is not nearer than `pair`. */
  ghost predicate NotNearer(root: real -> real, points: seq<SpawnPoint>, pair: Option<ClearancePair>, i: int, j: int)
  {
    0 <= i < j < |points| ==> pair.Some? && pair.value.distance <= root(DistanceSq(points[i], points[j]))
  }

  /** `pair` realises the least distance over the pairs visited before (left, right). */
  ghost predicate Closest(root: real -> real, points: seq<SpawnPoint>, left: int, right: int,
                          pair: Option<ClearancePair>)
  {
    && (pair.Some? ==>
          && pair.value.distance == root(DistanceSq(pair.value.left, pair.value.right))
          && exists i, j :: 0 <= i < j < |points| && points[i] == pair.value.left && points[j] == pair.value.right)
    && forall i, j :: i < left || (i == left && j < right) ==> NotNearer(root, points, pair, i, j)
  }

  /** The closest pair of spawn points, if there are two. */
  method FindClosestSpawnPair(points: seq<SpawnPoint>, root: real -> real) returns (closest: Option<ClearancePair>)
    requires forall v :: RootAt(root, v)
    ensures closest.None? <==> |points| < 2
    ensures closest.Some? ==>
              && closest.value.distance == root(DistanceSq(closest.value.left, closest.value.right))
              && IsSpread(points, DistanceSq(closest.value.left, closest.value.right))
  {
    closest := None;
    var left := 0;
    while left < |points|
      invariant 0 <= left <= |points|
      invariant Closest(root, points, left, 0, closest)
    {
      var right := left + 1;
      while right < |points|
        invariant left < right <= |points|
        invariant Closest(root, points, left, right, closest)
      {
        var distance := root(DistanceSq(points[left], points[right]));
        ghost var was := closest;
        if closest.None? || distance < closest.value.distance {
          closest := Some(ClearancePair(points[left], points[right], distance));
        }
        forall i, j | i < left || (i == left && j < right + 1) ensures NotNearer(root, points, closest, i, j) {
          assert i < left || j < right ==> NotNearer(root, points, was, i, j);
        }
        right := right + 1;
      }
      left := left + 1;
    }
    ClosestIsSpread(root, points, closest);
  }

  lemma ClosestIsSpread(root: real -> real, points: seq<SpawnPoint>, pair: Option<ClearancePair>)
    requires (forall v :: RootAt(root, v)) && Closest(root, points, |points|, 0, pair)
    ensures pair.None? <==> |points| < 2
    ensures pair.Some? ==> IsSpread(points, DistanceSq(pair.value.left, pair.value.right))
  {
    assert NotNearer(root, points, pair, 0, 1);
    if pair.Some? {
      var d := DistanceSq(pair.value.left, pair.value.right);
      forall i, j | 0 <= i < j < |points| ensures d <= DistanceSq(points[i], points[j]) {
        assert NotNearer(root, points, pair, i, j);
        Symmetric(points[i], points[j]);
        Symmetric(pair.value.left, pair.value.right);
        RootOrder(root, d, DistanceSq(points[i], points[j]));
      }
    }
  }
}
