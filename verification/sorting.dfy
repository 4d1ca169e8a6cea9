/** Stable sorting by a numeric key, newest first. Used for Prisma's
    `orderBy: { createdAt: 'desc' }` (rows with equal timestamps stay in table
    order, which is one of the orders the database may return) and for the
    dashboard's `Array.prototype.sort`, which is stable. */
module Sorting {
  import opened Common

  predicate SortedDesc<T>(s: seq<T>, key: T -> int) {
    forall i, j :: 0 <= i < j < |s| ==> key(s[i]) >= key(s[j])
  }

  /** A head whose key bounds the first key of a sorted tail keeps it sorted. */
  lemma SortedCons<T>(h: T, t: seq<T>, key: T -> int)
    requires SortedDesc(t, key)
    requires |t| > 0 ==> key(h) >= key(t[0])
    ensures SortedDesc([h] + t, key)
  {
    var r := [h] + t;
    forall i, j | 0 <= i < j < |r| ensures key(r[i]) >= key(r[j]) {
      if i == 0 {
        assert r[j] == t[j - 1];
        if j > 1 { assert key(t[0]) >= key(t[j - 1]); }
      } else {
        assert r[i] == t[i - 1] && r[j] == t[j - 1];
      }
    }
  }

  /** Puts `x` after every element whose key is at least its own. */
  function InsertDesc<T>(s: seq<T>, x: T, key: T -> int): (r: seq<T>)
    requires SortedDesc(s, key)
    ensures SortedDesc(r, key)
    ensures multiset(r) == multiset(s) + multiset{x}
    ensures |r| == |s| + 1
    ensures r[0] == x || (|s| > 0 && r[0] == s[0])
  {
    if |s| == 0 then [x]
    else if key(s[0]) >= key(x) then
      var t := InsertDesc(s[1..], x, key);
      assert s == [s[0]] + s[1..];
      assert key(s[0]) >= key(t[0]) by {
        if t[0] != x { assert t[0] == s[1]; }
      }
      SortedCons(s[0], t, key);
      [s[0]] + t
    else
      SortedCons(x, s, key);
      [x] + s
  }

  /** `[...s].sort((a, b) => key(b) - key(a))`. */
  function SortDesc<T>(s: seq<T>, key: T -> int): (r: seq<T>)
    ensures SortedDesc(r, key)
    ensures multiset(r) == multiset(s)
    ensures |r| == |s|
  {
    if |s| == 0 then []
    else
      assert s == s[..|s| - 1] + [s[|s| - 1]];
      InsertDesc(SortDesc(s[..|s| - 1], key), s[|s| - 1], key)
  }

  /** Sorting keeps exactly the elements it was given. */
  lemma SortDescSameElements<T>(s: seq<T>, key: T -> int)
    ensures forall x :: x in SortDesc(s, key) <==> x in s
  {
    var r := SortDesc(s, key);
    assert forall x :: x in r <==> x in multiset(r);
    assert forall x :: x in s <==> x in multiset(s);
  }

  /** The elements whose key is `k`. */
  function KeyIs<T>(key: T -> int, k: int): T -> bool {
    (y: T) => key(y) == k
  }

  /** Inserting preserves the relative order of the elements sharing a key. */
  lemma {:induction false} InsertDescStable<T>(s: seq<T>, x: T, key: T -> int, k: int)
    requires SortedDesc(s, key)
    ensures Filter(InsertDesc(s, x, key), KeyIs(key, k)) == Filter(s, KeyIs(key, k)) + Filter([x], KeyIs(key, k))
  {
    var p := KeyIs(key, k);
    if |s| == 0 {
      assert Filter(s, p) == [];
    } else if key(s[0]) >= key(x) {
      var t := InsertDesc(s[1..], x, key);
      InsertDescStable(s[1..], x, key, k);
      assert InsertDesc(s, x, key) == [s[0]] + t;
      FilterAppend([s[0]], t, p);
      assert s == [s[0]] + s[1..];
      FilterAppend([s[0]], s[1..], p);
    } else {
      assert InsertDesc(s, x, key) == [x] + s;
      FilterAppend([x], s, p);
      if key(x) == k {
        // every key of s is below x's, so none of s is kept
        forall i | 0 <= i < |s| ensures !p(s[i]) {
          assert key(s[0]) >= key(s[i]);
        }
        FilterNone(s, p);
      } else {
        assert !p(x);
        assert ([x])[1..] == [];
        assert Filter([x], p) == [];
      }
    }
  }

  /** The sort is stable: elements with equal keys keep their input order. */
  lemma {:induction false} SortDescStable<T>(s: seq<T>, key: T -> int, k: int)
    ensures Filter(SortDesc(s, key), KeyIs(key, k)) == Filter(s, KeyIs(key, k))
  {
    var p := KeyIs(key, k);
    if |s| > 0 {
      var init := s[..|s| - 1];
      var last := s[|s| - 1];
      assert s == init + [last];
      calc {
        Filter(SortDesc(s, key), p);
        Filter(InsertDesc(SortDesc(init, key), last, key), p);
        { InsertDescStable(SortDesc(init, key), last, key, k); }
        Filter(SortDesc(init, key), p) + Filter([last], p);
        { SortDescStable(init, key, k); }
        Filter(init, p) + Filter([last], p);
        { FilterAppend(init, [last], p); }
        Filter(s, p);
      }
    }
  }
}
