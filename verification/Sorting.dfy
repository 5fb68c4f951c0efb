/** Stable sorting by a total preorder, as `sort_by_key` does it. */
module Sorting {

  ghost predicate Preorder<T(!new)>(le: (T, T) -> bool) {
    && (forall a, b :: le(a, b) || le(b, a))
    && (forall a, b, c :: le(a, b) && le(b, c) ==> le(a, c))
  }

  ghost predicate Ascending<T>(s: seq<T>, le: (T, T) -> bool) {
    forall i, j :: 0 <= i < j < |s| ==> le(s[i], s[j])
  }

  /** Puts x behind everything not greater than it. */
  function Insert<T>(s: seq<T>, x: T, le: (T, T) -> bool): (r: seq<T>)
    ensures |r| == |s| + 1
  {
    if s == [] then [x]
    else if le(s[|s| - 1], x) then s + [x]
    else Insert(s[..|s| - 1], x, le) + [s[|s| - 1]]
  }

  function SortBy<T>(s: seq<T>, le: (T, T) -> bool): (r: seq<T>)
    ensures |r| == |s|
  {
    if s == [] then [] else Insert(SortBy(s[..|s| - 1], le), s[|s| - 1], le)
  }

  lemma {:induction false} InsertKeeps<T>(s: seq<T>, x: T, le: (T, T) -> bool)
    ensures multiset(Insert(s, x, le)) == multiset(s) + multiset{x}
  {
    if s != [] {
      var n := |s| - 1;
      assert s == s[..n] + [s[n]];
      if !le(s[n], x) {
        InsertKeeps(s[..n], x, le);
      }
    }
  }

  lemma {:induction false} InsertAscending<T(!new)>(s: seq<T>, x: T, le: (T, T) -> bool)
    requires Preorder(le) && Ascending(s, le)
    ensures Ascending(Insert(s, x, le), le)
  {
    if s != [] {
      var n := |s| - 1;
      if le(s[n], x) {
        forall i | 0 <= i < n
          ensures le(s[i], x)
        {
          assert le(s[i], s[n]);
        }
      } else {
        InsertAscending(s[..n], x, le);
        InsertKeeps(s[..n], x, le);
        forall y | y in Insert(s[..n], x, le)
          ensures le(y, s[n])
        {
          assert y in multiset(Insert(s[..n], x, le));
          assert y in s[..n] || y == x;
        }
      }
    }
  }

  /** Sorting gives an ascending rearrangement. */
  lemma {:induction false} SortCorrect<T(!new)>(s: seq<T>, le: (T, T) -> bool)
    requires Preorder(le)
    ensures Ascending(SortBy(s, le), le)
    ensures multiset(SortBy(s, le)) == multiset(s)
  {
    hide Preorder, Ascending;
    if s == [] {
      NothingAscends(s, le);
    } else {
      var n := |s| - 1;
      SortCorrect(s[..n], le);
      InsertAscending(SortBy(s[..n], le), s[n], le);
      InsertKeeps(SortBy(s[..n], le), s[n], le);
      assert s == s[..n] + [s[n]];
    }
  }

  lemma NothingAscends<T>(s: seq<T>, le: (T, T) -> bool)
    requires s == []
    ensures Ascending(SortBy(s, le), le)
  {
  }

  /** Two orders that agree on the elements sort them alike. */
  lemma {:induction false} SortAgrees<T(!new)>(s: seq<T>, le: (T, T) -> bool, le2: (T, T) -> bool)
    requires Preorder(le)
    requires forall a, b :: a in s && b in s && a != b ==> le(a, b) == le2(a, b)
    requires forall a :: le(a, a) && le2(a, a)
    ensures SortBy(s, le) == SortBy(s, le2)
  {
    if s != [] {
      var n := |s| - 1;
      SortAgrees(s[..n], le, le2);
      SortCorrect(s[..n], le);
      var sorted := SortBy(s[..n], le);
      forall a | a in sorted
        ensures a in s
      {
        assert a in multiset(sorted);
      }
      InsertAgrees(sorted, s[n], le, le2);
    }
  }

  lemma {:induction false} InsertAgrees<T(!new)>(s: seq<T>, x: T, le: (T, T) -> bool, le2: (T, T) -> bool)
    requires forall a :: a in s ==> le(a, x) == le2(a, x)
    ensures Insert(s, x, le) == Insert(s, x, le2)
  {
    if s != [] && !le(s[|s| - 1], x) {
      InsertAgrees(s[..|s| - 1], x, le, le2);
    }
  }

  ghost predicate Distinct<T>(s: seq<T>) {
    forall i, j :: 0 <= i < j < |s| ==> s[i] != s[j]
  }

  /** A rearrangement of distinct elements has the same elements, and they are distinct. */
  lemma Rearranged<T>(s: seq<T>, t: seq<T>)
    requires Distinct(s) && multiset(s) == multiset(t)
    ensures Distinct(t) && |s| == |t| && forall x :: x in s <==> x in t
  {
    assert |multiset(s)| == |s| && |multiset(t)| == |t|;
    forall x
      ensures x in s <==> x in t
    {
      assert x in multiset(s) <==> x in multiset(t);
    }
    forall i, j | 0 <= i < j < |t|
      ensures t[i] != t[j]
    {
      if t[i] == t[j] {
        TwiceThere(t, i, j);
        OnlyOnce(s, t[i]);
      }
    }
  }

  lemma TwiceThere<T>(t: seq<T>, i: nat, j: nat)
    requires i < j < |t| && t[i] == t[j]
    ensures multiset(t)[t[i]] >= 2
  {
    assert t == t[..i] + [t[i]] + t[i + 1..j] + [t[j]] + t[j + 1..];
  }

  lemma OnlyOnce<T>(s: seq<T>, x: T)
    requires Distinct(s) && x in s
    ensures multiset(s)[x] == 1
  {
    var a :| 0 <= a < |s| && s[a] == x;
    assert s == s[..a] + [s[a]] + s[a + 1..];
    assert s[a] !in s[..a] && s[a] !in s[a + 1..];
  }
}
