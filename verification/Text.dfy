/**
 The order of strings, character by character, used to keep lists of open identifiers canonical,
 and strings joined with a separator.
 */
module Text {
  import opened Sorting

  predicate TextLeq(a: string, b: string)
  {
    a == "" || (b != "" && (a[0] < b[0] || (a[0] == b[0] && TextLeq(a[1..], b[1..]))))
  }

  predicate TextLess(a: string, b: string)
  {
    TextLeq(a, b) && a != b
  }

  lemma {:induction false} TextTotal(a: string, b: string)
    ensures TextLeq(a, b) || TextLeq(b, a)
    ensures TextLeq(a, b) && TextLeq(b, a) ==> a == b
  {
    if a != "" && b != "" {
      TextTotal(a[1..], b[1..]);
      if a[0] == b[0] && a[1..] == b[1..] {
        assert a == [a[0]] + a[1..] && b == [b[0]] + b[1..];
      }
    }
  }

  lemma {:induction false} TextTransitive(a: string, b: string, c: string)
    requires TextLeq(a, b) && TextLeq(b, c)
    ensures TextLeq(a, c)
  {
    if a != "" && a[0] == b[0] && b[0] == c[0] {
      TextTransitive(a[1..], b[1..], c[1..]);
    }
  }

  lemma TextPreorder()
    ensures TotalPreorder(TextLeq)
  {
    forall a, b ensures TextLeq(a, b) || TextLeq(b, a) {
      TextTotal(a, b);
    }
    forall a, b, c | TextLeq(a, b) && TextLeq(b, c) ensures TextLeq(a, c) {
      TextTransitive(a, b, c);
    }
  }

  // ----- lists kept in key order -----

  ghost predicate DistinctKeys<T(!new)>(s: seq<T>, key: T -> string)
  {
    forall i, j :: 0 <= i < j < |s| ==> key(s[i]) != key(s[j])
  }

  ghost predicate StrictlyAscending<T(!new)>(s: seq<T>, key: T -> string)
  {
    forall i, j :: 0 <= i < j < |s| ==> TextLess(key(s[i]), key(s[j]))
  }

  lemma {:induction false} FilterDistinctKeys<T(!new)>(s: seq<T>, key: T -> string, p: T -> bool)
    requires DistinctKeys(s, key)
    ensures DistinctKeys(Filter(s, p), key)
  {
    if s != [] {
      FilterDistinctKeys(s[1..], key, p);
      var f := Filter(s[1..], p);
      forall i | 0 <= i < |f| ensures key(f[i]) != key(s[0]) {
        assert f[i] in f;
        var j :| 0 < j < |s| && s[j] == f[i];
      }
    }
  }

  /** Sorting by distinct keys puts them in strict order and keeps the members. */
  lemma SortIsStrict<T(!new)>(s: seq<T>, key: T -> string, le: (T, T) -> bool)
    requires forall a, b :: le(a, b) == TextLeq(key(a), key(b))
    requires DistinctKeys(s, key)
    ensures StrictlyAscending(SortBy(s, le), key)
    ensures forall x :: x in SortBy(s, le) <==> x in s
  {
    KeyPreorder(key, le);
    SortMultiset(s, le);
    SortSorted(s, le);
    var t := SortBy(s, le);
    forall i, j | 0 <= i < j < |t| ensures TextLess(key(t[i]), key(t[j])) {
      assert le(t[i], t[j]);
      if t[i] == t[j] {
        RepeatCount(t, i, j);
        DistinctCount(s, t[i]);
      } else {
        assert t[i] in s && t[j] in s;
        var a :| 0 <= a < |s| && s[a] == t[i];
        var b :| 0 <= b < |s| && s[b] == t[j];
      }
    }
  }

  lemma KeyPreorder<T(!new)>(key: T -> string, le: (T, T) -> bool)
    requires forall a, b :: le(a, b) == TextLeq(key(a), key(b))
    ensures TotalPreorder(le)
  {
    TextPreorder();
  }

  // ----- joined strings -----

  lemma SplitLeft(a: string, b: string, c: string, d: string, sep: char)
    requires a + [sep] + b == c + [sep] + d && |a| < |c|
    ensures sep in c && sep in b
  {
    var s, t := a + [sep] + b, c + [sep] + d;
    assert s[|a|] == t[|a|] == c[|a|];
    assert t[|c|] == s[|c|] == b[|c| - |a| - 1];
  }

  /** Splitting at a separator that the left parts, or the right parts, do not contain is unique. */
  lemma SplitUnique(a: string, b: string, c: string, d: string, sep: char)
    requires a + [sep] + b == c + [sep] + d
    requires |a| == |c| || (sep !in a && sep !in c) || (sep !in b && sep !in d)
    ensures a == c && b == d
  {
    if |a| < |c| {
      SplitLeft(a, b, c, d, sep);
    } else if |c| < |a| {
      SplitLeft(c, d, a, b, sep);
    } else {
      var s, t := a + [sep] + b, c + [sep] + d;
      assert s[..|a|] == a && t[..|c|] == c;
      assert s[|a| + 1..] == b && t[|c| + 1..] == d;
    }
  }
}
