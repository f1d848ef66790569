/**
 The built-in array operations the repository leans on: `filter` and the stable
 `Array.prototype.sort`. A comparator is modelled by the relation "not after".
 */
module Sorting {

  function Filter<T(!new)>(s: seq<T>, p: T -> bool): (r: seq<T>)
    ensures forall x :: x in r <==> x in s && p(x)
  {
    if s == [] then []
    else if p(s[0]) then [s[0]] + Filter(s[1..], p)
    else Filter(s[1..], p)
  }

  function Insert<T(!new)>(x: T, s: seq<T>, le: (T, T) -> bool): seq<T>
  {
    if s == [] || le(x, s[0]) then [x] + s else [s[0]] + Insert(x, s[1..], le)
  }

  /** Stable sort: an element is placed before the later elements it ties with. */
  function SortBy<T(!new)>(s: seq<T>, le: (T, T) -> bool): seq<T>
  {
    if s == [] then [] else Insert(s[0], SortBy(s[1..], le), le)
  }

  ghost predicate Sorted<T(!new)>(s: seq<T>, le: (T, T) -> bool)
  {
    forall i, j :: 0 <= i < j < |s| ==> le(s[i], s[j])
  }

  /** What `sort` asks of a comparator. */
  ghost predicate TotalPreorder<T(!new)>(le: (T, T) -> bool)
  {
    && (forall x, y :: le(x, y) || le(y, x))
    && (forall x, y, z :: le(x, y) && le(y, z) ==> le(x, z))
  }

  /** Elements of `s` that tie are equal. */
  ghost predicate TiesAreEqual<T(!new)>(s: seq<T>, le: (T, T) -> bool)
  {
    forall x, y :: x in s && y in s && le(x, y) && le(y, x) ==> x == y
  }

  lemma {:induction false} InsertMultiset<T(!new)>(x: T, s: seq<T>, le: (T, T) -> bool)
    ensures multiset(Insert(x, s, le)) == multiset(s) + multiset{x}
  {
    if s == [] || le(x, s[0]) {
    } else {
      InsertMultiset(x, s[1..], le);
      assert s == [s[0]] + s[1..];
    }
  }

  lemma {:induction false} SortMultiset<T(!new)>(s: seq<T>, le: (T, T) -> bool)
    ensures multiset(SortBy(s, le)) == multiset(s)
    ensures |SortBy(s, le)| == |s|
    ensures forall x :: x in SortBy(s, le) <==> x in s
  {
    if s == [] {
    } else {
      SortMultiset(s[1..], le);
      InsertMultiset(s[0], SortBy(s[1..], le), le);
      assert s == [s[0]] + s[1..];
    }
    assert |multiset(SortBy(s, le))| == |multiset(s)|;
    forall x ensures x in SortBy(s, le) <==> x in s {
      assert x in SortBy(s, le) <==> x in multiset(SortBy(s, le));
      assert x in s <==> x in multiset(s);
    }
  }

  lemma {:induction false} InsertSorted<T(!new)>(x: T, s: seq<T>, le: (T, T) -> bool)
    requires TotalPreorder(le) && Sorted(s, le)
    ensures Sorted(Insert(x, s, le), le)
  {
    if s == [] {
    } else if le(x, s[0]) {
      forall j | 0 <= j < |s| ensures le(x, s[j]) {
        assert j == 0 || le(s[0], s[j]);
      }
    } else {
      var rest := Insert(x, s[1..], le);
      InsertSorted(x, s[1..], le);
      InsertMultiset(x, s[1..], le);
      forall j | 0 <= j < |rest| ensures le(s[0], rest[j]) {
        assert rest[j] in multiset(rest);
        if rest[j] != x {
          assert rest[j] in s[1..];
        }
      }
    }
  }

  lemma {:induction false} SortSorted<T(!new)>(s: seq<T>, le: (T, T) -> bool)
    requires TotalPreorder(le)
    ensures Sorted(SortBy(s, le), le)
  {
    if s != [] {
      SortSorted(s[1..], le);
      InsertSorted(s[0], SortBy(s[1..], le), le);
    }
  }

  lemma {:induction false} SortOfSorted<T(!new)>(s: seq<T>, le: (T, T) -> bool)
    requires Sorted(s, le)
    ensures SortBy(s, le) == s
  {
    if s != [] {
      SortOfSorted(s[1..], le);
    }
  }

  /** A sorted arrangement is unique when ties are equal. */
  lemma {:induction false} SortedUnique<T(!new)>(s: seq<T>, t: seq<T>, le: (T, T) -> bool)
    requires Sorted(s, le) && Sorted(t, le) && multiset(s) == multiset(t)
    requires TiesAreEqual(s, le)
    ensures s == t
  {
    assert |multiset(s)| == |multiset(t)|;
    if s != [] {
      assert s[0] in multiset(t) && t[0] in multiset(s);
      assert s[0] == t[0];
      RestMultiset(s, t);
      SortedUnique(s[1..], t[1..], le);
    }
  }

  lemma RestMultiset<T>(s: seq<T>, t: seq<T>)
    requires s != [] && t != [] && s[0] == t[0] && multiset(s) == multiset(t)
    ensures multiset(s[1..]) == multiset(t[1..])
  {
    assert s == [s[0]] + s[1..] && t == [t[0]] + t[1..];
    assert multiset(s[1..]) == multiset(s) - multiset{s[0]};
    assert multiset(t[1..]) == multiset(t) - multiset{t[0]};
  }

  /** Sorting forgets the arrival order exactly as far as ties are equal. */
  lemma SortForgetsOrder<T(!new)>(s: seq<T>, t: seq<T>, le: (T, T) -> bool)
    requires TotalPreorder(le) && multiset(s) == multiset(t) && TiesAreEqual(s, le)
    ensures SortBy(s, le) == SortBy(t, le)
  {
    SortMultiset(s, le);
    SortMultiset(t, le);
    SortSorted(s, le);
    SortSorted(t, le);
    SortedUnique(SortBy(s, le), SortBy(t, le), le);
  }

  lemma {:induction false} InsertFilter<T(!new)>(x: T, s: seq<T>, le: (T, T) -> bool, p: T -> bool)
    requires TotalPreorder(le) && Sorted(s, le)
    ensures Filter(Insert(x, s, le), p) == if p(x) then Insert(x, Filter(s, p), le) else Filter(s, p)
  {
    if s == [] {
    } else if le(x, s[0]) {
      assert ([x] + s)[1..] == s;
      var f := Filter(s, p);
      if p(x) && f != [] {
        assert f[0] in s;
        var j :| 0 <= j < |s| && s[j] == f[0];
        assert j == 0 || le(s[0], s[j]);
      }
    } else {
      InsertFilter(x, s[1..], le, p);
      assert Insert(x, s, le)[1..] == Insert(x, s[1..], le);
      if p(x) && p(s[0]) {
        assert ([s[0]] + Filter(s[1..], p))[1..] == Filter(s[1..], p);
      }
    }
  }

  /** Filtering commutes with the stable sort. */
  lemma {:induction false} FilterSort<T(!new)>(s: seq<T>, le: (T, T) -> bool, p: T -> bool)
    requires TotalPreorder(le)
    ensures Filter(SortBy(s, le), p) == SortBy(Filter(s, p), le)
  {
    if s != [] {
      FilterSort(s[1..], le, p);
      SortSorted(s[1..], le);
      InsertFilter(s[0], SortBy(s[1..], le), le, p);
    }
  }

  lemma {:induction false} FilterAppend<T(!new)>(s: seq<T>, t: seq<T>, p: T -> bool)
    ensures Filter(s + t, p) == Filter(s, p) + Filter(t, p)
  {
    if s == [] {
      assert s + t == t;
    } else {
      FilterAppend(s[1..], t, p);
      assert (s + t)[1..] == s[1..] + t;
    }
  }

  lemma {:induction false} FilterAll<T(!new)>(s: seq<T>, p: T -> bool)
    requires forall x :: x in s ==> p(x)
    ensures Filter(s, p) == s
  {
    if s != [] {
      FilterAll(s[1..], p);
    }
  }

  lemma {:induction false} FilterNone<T(!new)>(s: seq<T>, p: T -> bool)
    requires forall x :: x in s ==> !p(x)
    ensures Filter(s, p) == []
  {
    if s != [] {
      FilterNone(s[1..], p);
    }
  }

  lemma {:induction false} FilterExt<T(!new)>(s: seq<T>, p: T -> bool, q: T -> bool)
    requires forall x :: x in s ==> p(x) == q(x)
    ensures Filter(s, p) == Filter(s, q)
  {
    if s != [] {
      FilterExt(s[1..], p, q);
    }
  }

  /** A predicate whose elements all precede the others splits the sorted list in two. */
  lemma SortSplit<T(!new)>(s: seq<T>, le: (T, T) -> bool, p: T -> bool)
    requires TotalPreorder(le)
    requires forall x, y :: x in s && y in s && p(x) && !p(y) ==> !le(y, x)
    ensures SortBy(s, le) == SortBy(Filter(s, p), le) + SortBy(Filter(s, x => !p(x)), le)
  {
    SortSorted(s, le);
    SortMultiset(s, le);
    SortedSplit(SortBy(s, le), le, p);
    FilterSort(s, le, p);
    FilterSort(s, le, x => !p(x));
  }

  lemma {:induction false} SortedSplit<T(!new)>(s: seq<T>, le: (T, T) -> bool, p: T -> bool)
    requires Sorted(s, le)
    requires forall x, y :: x in s && y in s && p(x) && !p(y) ==> !le(y, x)
    ensures s == Filter(s, p) + Filter(s, x => !p(x))
  {
    if s != [] {
      SortedSplit(s[1..], le, p);
      if !p(s[0]) {
        forall y | y in s ensures !p(y) {
          var j :| 0 <= j < |s| && s[j] == y;
          assert j == 0 || le(s[0], s[j]);
        }
        FilterNone(s, p);
        FilterAll(s, x => !p(x));
      }
    }
  }

  // ----- permutations and ties -----

  lemma SameMembers<T(!new)>(s: seq<T>, t: seq<T>)
    requires multiset(s) == multiset(t)
    ensures forall x :: x in s <==> x in t
  {
    forall x ensures x in s <==> x in t {
      assert x in s <==> x in multiset(s);
    }
  }

  lemma {:induction false} FilterCount<T(!new)>(s: seq<T>, p: T -> bool, x: T)
    ensures multiset(Filter(s, p))[x] == if p(x) then multiset(s)[x] else 0
  {
    if s != [] {
      FilterCount(s[1..], p, x);
      assert s == [s[0]] + s[1..];
    }
  }

  /** Concatenation is associative. */
  lemma Regroup<T>(a: seq<T>, b: seq<T>, c: seq<T>)
    ensures a + (b + c) == (a + b) + c
  {
  }

  function Without<T>(s: seq<T>, i: nat): seq<T>
    requires i < |s|
  {
    s[..i] + s[i + 1..]
  }

  lemma FirstIsPermutation<T>(s: seq<T>, i: nat)
    requires i < |s|
    ensures multiset([s[i]] + Without(s, i)) == multiset(s)
  {
    assert s == s[..i] + [s[i]] + s[i + 1..];
  }

  lemma FilterMiddle<T(!new)>(front: seq<T>, x: T, back: seq<T>, p: T -> bool)
    requires !p(x)
    ensures Filter(front + ([x] + back), p) == Filter(front + back, p)
  {
    SkipOne(x, back, p);
    FilterAppend(front, back, p);
    FilterAppend(front, [x] + back, p);
  }

  lemma SkipOne<T(!new)>(x: T, s: seq<T>, p: T -> bool)
    requires !p(x)
    ensures Filter([x] + s, p) == Filter(s, p)
  {
    assert ([x] + s)[1..] == s;
  }

  lemma LeastStaysFirst<T(!new)>(x: T, s: seq<T>, le: (T, T) -> bool)
    requires forall y :: y in s ==> le(x, y)
    ensures SortBy([x] + s, le) == [x] + SortBy(s, le)
  {
    assert ([x] + s)[1..] == s;
    SortMultiset(s, le);
    var sorted := SortBy(s, le);
    assert sorted != [] ==> sorted[0] in sorted;
  }

  /** With an element moved to the front, sorting puts what precedes it first and then the element itself. */
  lemma FrontOfItsClass<T(!new)>(front: seq<T>, c: T, back: seq<T>, le: (T, T) -> bool, before: T -> bool)
    requires TotalPreorder(le) && forall x :: before(x) == !le(c, x)
    ensures exists tail :: SortBy([c] + (front + back),
                                  le) == SortBy(Filter(front + ([c] + back), before), le) + [c] + tail
  {
    var rest, after := front + back, x => !before(x);
    assert le(c, c);
    SortSplit([c] + rest, le, before);
    FilterMiddle(front, c, back, before);
    SkipOne(c, rest, before);
    FilterAppend([c], rest, after);
    assert Filter([c], after) == [c];
    LeastStaysFirst(c, Filter(rest, after), le);
    var tail := SortBy(Filter(rest, after), le);
    Regroup(SortBy(Filter(rest, before), le), [c], tail);
  }

  lemma MovedToFront<T(!new)>(s: seq<T>, i: nat, le: (T, T) -> bool, before: T -> bool) returns (tail: seq<T>)
    requires i < |s| && TotalPreorder(le) && forall x :: before(x) == !le(s[i], x)
    ensures SortBy([s[i]] + Without(s, i), le) == SortBy(Filter(s, before), le) + [s[i]] + tail
  {
    var front, back := s[..i], s[i + 1..];
    assert s == front + ([s[i]] + back);
    FrontOfItsClass(front, s[i], back, le, before);
    tail :| SortBy([s[i]] + (front + back), le) == SortBy(Filter(s, before), le) + [s[i]] + tail;
  }

  /** Every arrangement of the elements is sorted into the same list. */
  ghost predicate OrderIsForgotten<T(!new)>(s: seq<T>, le: (T, T) -> bool)
  {
    forall t: seq<T> :: multiset(t) == multiset(s) ==> SortBy(t, le) == SortBy(s, le)
  }

  lemma TieIsRemembered<T(!new)>(s: seq<T>, i: nat, j: nat, le: (T, T) -> bool)
    requires TotalPreorder(le) && i < |s| && j < |s| && le(s[i], s[j]) && le(s[j], s[i]) && s[i] != s[j]
    ensures SortBy([s[i]] + Without(s, i), le) != SortBy([s[j]] + Without(s, j), le)
  {
    var before := x => !le(s[i], x);
    var t := MovedToFront(s, i, le, before);
    var u := MovedToFront(s, j, le, before);
    var prefix := SortBy(Filter(s, before), le);
    assert (prefix + [s[i]] + t)[|prefix|] == s[i] && (prefix + [s[j]] + u)[|prefix|] == s[j];
  }

  /** A stable sort forgets the arrival order exactly when no two different elements tie. */
  lemma OrderIsForgottenIff<T(!new)>(s: seq<T>, le: (T, T) -> bool)
    requires TotalPreorder(le)
    ensures OrderIsForgotten(s, le) <==> TiesAreEqual(s, le)
  {
    if TiesAreEqual(s, le) {
      forall t: seq<T> | multiset(t) == multiset(s) ensures SortBy(t, le) == SortBy(s, le) {
        SortForgetsOrder(s, t, le);
      }
    } else {
      var x, y :| x in s && y in s && le(x, y) && le(y, x) && x != y;
      var i :| 0 <= i < |s| && s[i] == x;
      var j :| 0 <= j < |s| && s[j] == y;
      TieIsRemembered(s, i, j, le);
      FirstIsPermutation(s, i);
      FirstIsPermutation(s, j);
    }
  }

  // ----- ascending identifiers -----

  ghost predicate Ascending(s: seq<int>)
  {
    forall i, j :: 0 <= i < j < |s| ==> s[i] < s[j]
  }

  function SortIds(s: seq<int>): seq<int>
  {
    SortBy(s, (a: int, b: int) => a <= b)
  }

  lemma FirstIsLeast(s: seq<int>, x: int)
    requires Ascending(s) && |s| > 0
    ensures x in s ==> s[0] <= x
  {
    if x in s {
      var i :| 0 <= i < |s| && s[i] == x;
      if i > 0 {
        assert s[0] < s[i];
      }
    }
  }

  /** Two ascending lists with the same members are the same list. */
  lemma {:induction false} AscendingUnique(s: seq<int>, t: seq<int>)
    requires Ascending(s) && Ascending(t)
    requires forall x :: x in s <==> x in t
    ensures s == t
  {
    if s == [] {
      assert forall i :: 0 <= i < |t| ==> t[i] in t;
    } else {
      assert s[0] in s;
      FirstIsLeast(s, t[0]);
      FirstIsLeast(t, s[0]);
      forall x ensures x in s[1..] <==> x in t[1..] {
        assert x in s <==> x == s[0] || x in s[1..];
        assert x in t <==> x == t[0] || x in t[1..];
        assert s[0] !in s[1..] && t[0] !in t[1..];
      }
      AscendingUnique(s[1..], t[1..]);
    }
  }

  lemma {:induction false} FilterAscending(s: seq<int>, p: int -> bool)
    requires Ascending(s)
    ensures Ascending(Filter(s, p))
  {
    if s != [] {
      FilterAscending(s[1..], p);
      var f := Filter(s[1..], p);
      forall i | 0 <= i < |f| ensures s[0] < f[i] {
        assert f[i] in f;
        var j :| 0 < j < |s| && s[j] == f[i];
      }
    }
  }

  lemma SortIdsAscending(s: seq<int>)
    requires forall i, j :: 0 <= i < j < |s| ==> s[i] != s[j]
    ensures Ascending(SortIds(s))
    ensures forall x :: x in SortIds(s) <==> x in s
  {
    var le := (a: int, b: int) => a <= b;
    SortSorted(s, le);
    SortMultiset(s, le);
    var t := SortIds(s);
    forall i, j | 0 <= i < j < |t| ensures t[i] < t[j] {
      assert t[i] <= t[j];
      if t[i] == t[j] {
        DistinctCount(s, t[i]);
        RepeatCount(t, i, j);
      }
    }
  }

  lemma {:induction false} DistinctCount<T(!new)>(s: seq<T>, x: T)
    requires forall i, j :: 0 <= i < j < |s| ==> s[i] != s[j]
    ensures multiset(s)[x] <= 1
  {
    if s != [] {
      DistinctCount(s[1..], x);
      assert s == [s[0]] + s[1..];
      if x == s[0] {
        assert x !in s[1..];
      }
    }
  }

  lemma RepeatCount<T(!new)>(s: seq<T>, i: nat, j: nat)
    requires i < j < |s| && s[i] == s[j]
    ensures multiset(s)[s[i]] >= 2
  {
    assert s == s[..i] + [s[i]] + s[i + 1..j] + [s[j]] + s[j + 1..];
  }
}
