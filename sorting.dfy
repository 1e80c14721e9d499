/** Array.prototype.sort with a comparator, as the site's code uses it: a stable sort
    (required of every engine since ES2019). It is modelled as a stable insertion
    sort; for a comparator that is a total preorder on the elements every stable
    sort gives this same result. */
module Sorting {

  /** Inserts x before the first element that the comparator puts after x;
      elements comparing equal to x stay in front of it. */
  function Insert<T>(x: T, s: seq<T>, cmp: (T, T) -> int): (r: seq<T>)
    ensures |r| == |s| + 1
    ensures multiset(r) == multiset(s) + multiset{x}
  {
    if s == [] then [x]
    else if cmp(s[0], x) > 0 then [x] + s
    else
      var r := [s[0]] + Insert(x, s[1..], cmp);
      assert s == [s[0]] + s[1..];
      r
  }

  /** The sorted copy of s: elements are inserted in their original order. */
  function Sort<T>(s: seq<T>, cmp: (T, T) -> int): (r: seq<T>)
    ensures |r| == |s|
    ensures multiset(r) == multiset(s)
  {
    if s == [] then []
    else
      var r := Insert(s[|s| - 1], Sort(s[..|s| - 1], cmp), cmp);
      assert s == s[..|s| - 1] + [s[|s| - 1]];
      r
  }

  ghost predicate SortedBy<T>(s: seq<T>, cmp: (T, T) -> int)
  {
    forall i, j :: 0 <= i < j < |s| ==> cmp(s[i], s[j]) <= 0
  }

  /** On the values of `xs`, cmp orders consistently: of two values at least one
      may precede the other, and "may precede" is transitive. */
  ghost predicate TotalPreorderOn<T>(cmp: (T, T) -> int, xs: set<T>)
  {
    && (forall a, b :: a in xs && b in xs && cmp(a, b) > 0 ==> cmp(b, a) <= 0)
    && (forall a, b, c :: a in xs && b in xs && c in xs && cmp(a, b) <= 0 && cmp(b, c) <= 0 ==> cmp(a, c) <= 0)
  }

  /** A head that may precede every element of a sorted tail keeps it sorted. */
  lemma SortedCons<T>(h: T, t: seq<T>, cmp: (T, T) -> int)
    requires SortedBy(t, cmp)
    requires forall y :: y in t ==> cmp(h, y) <= 0
    ensures SortedBy([h] + t, cmp)
  {
    var r := [h] + t;
    forall i, j | 0 <= i < j < |r|
      ensures cmp(r[i], r[j]) <= 0
    {
      assert r[j] == t[j - 1];
      if i > 0 {
        assert r[i] == t[i - 1];
      } else {
        assert t[j - 1] in t;
      }
    }
  }

  lemma {:induction false} InsertSorted<T>(x: T, s: seq<T>, cmp: (T, T) -> int, xs: set<T>)
    requires SortedBy(s, cmp)
    requires TotalPreorderOn(cmp, xs)
    requires x in xs && forall y :: y in s ==> y in xs
    ensures SortedBy(Insert(x, s, cmp), cmp)
  {
    if s != [] && cmp(s[0], x) <= 0 {
      assert SortedBy(s[1..], cmp);
      InsertSorted(x, s[1..], cmp, xs);
      var t := Insert(x, s[1..], cmp);
      forall y | y in t
        ensures cmp(s[0], y) <= 0
      {
        assert y in multiset(t);
        if y != x {
          assert y in s[1..];
          var k :| 0 <= k < |s[1..]| && s[1..][k] == y;
          assert s[k + 1] == y;
        }
      }
      SortedCons(s[0], t, cmp);
    } else if s != [] {
      forall y | y in s
        ensures cmp(x, y) <= 0
      {
        var k :| 0 <= k < |s| && s[k] == y;
        assert s[0] in xs && y in xs;
        if k > 0 {
          assert cmp(s[0], s[k]) <= 0;
        }
      }
      SortedCons(x, s, cmp);
    }
  }

  lemma {:induction false} SortSorted<T>(s: seq<T>, cmp: (T, T) -> int, xs: set<T>)
    requires TotalPreorderOn(cmp, xs)
    requires forall y :: y in s ==> y in xs
    ensures SortedBy(Sort(s, cmp), cmp)
  {
    if s != [] {
      var p := s[..|s| - 1];
      assert forall y :: y in p ==> y in s;
      SortSorted(p, cmp, xs);
      forall y | y in Sort(p, cmp)
        ensures y in xs
      {
        SortMembers(p, cmp, y);
      }
      InsertSorted(s[|s| - 1], Sort(p, cmp), cmp, xs);
    }
  }

  /** Membership is unchanged by sorting. */
  lemma SortMembers<T>(s: seq<T>, cmp: (T, T) -> int, x: T)
    ensures x in Sort(s, cmp) <==> x in s
  {
    assert x in Sort(s, cmp) <==> x in multiset(Sort(s, cmp));
  }

  ghost predicate KeysDistinct<T, K>(s: seq<T>, key: T -> K)
  {
    forall i, j :: 0 <= i < j < |s| ==> key(s[i]) != key(s[j])
  }

  lemma {:induction false} InsertKeysDistinct<T, K>(x: T, s: seq<T>, cmp: (T, T) -> int, key: T -> K)
    requires KeysDistinct(s, key)
    requires forall y :: y in s ==> key(y) != key(x)
    ensures KeysDistinct(Insert(x, s, cmp), key)
  {
    if s != [] && cmp(s[0], x) <= 0 {
      InsertKeysDistinct(x, s[1..], cmp, key);
      var t := Insert(x, s[1..], cmp);
      var r := [s[0]] + t;
      forall j | 0 < j < |r|
        ensures key(r[0]) != key(r[j])
      {
        assert r[j] in multiset(t);
        assert r[j] == x || r[j] in s[1..];
      }
    }
  }

  /** Sorting keeps distinct keys distinct. */
  lemma {:induction false} SortKeysDistinct<T, K>(s: seq<T>, cmp: (T, T) -> int, key: T -> K)
    requires KeysDistinct(s, key)
    ensures KeysDistinct(Sort(s, cmp), key)
  {
    if s != [] {
      var p := s[..|s| - 1];
      SortKeysDistinct(p, cmp, key);
      forall y | y in Sort(p, cmp)
        ensures key(y) != key(s[|s| - 1])
      {
        SortMembers(p, cmp, y);
      }
      InsertKeysDistinct(s[|s| - 1], Sort(p, cmp), cmp, key);
    }
  }
}
