/** The stable sort a result applies to its rows (and the schema listing to
    its names): the order of a library merge sort, defined here as insertion
    sort, with the three facts the callers rely on proved about it. */
module Sorting {
  import opened Values

  /** Inserts x before the first element it is not greater than. */
  function Insert<T>(x: T, s: seq<T>, cmp: (T, T) -> int): (r: seq<T>)
    ensures multiset(r) == multiset(s) + multiset{x}
    decreases |s|
  {
    if s == [] then [x]
    else if cmp(x, s[0]) <= 0 then [x] + s
    else
      assert s == [s[0]] + s[1..];
      [s[0]] + Insert(x, s[1..], cmp)
  }

  /** The elements of s in ascending order of cmp; equivalent elements keep
      the order they had in s. */
  function SortBy<T>(s: seq<T>, cmp: (T, T) -> int): (r: seq<T>)
    ensures multiset(r) == multiset(s)
    ensures |r| == |s|
    decreases |s|
  {
    if s == [] then []
    else
      assert s == [s[0]] + s[1..];
      Insert(s[0], SortBy(s[1..], cmp), cmp)
  }

  /** Sorting neither adds nor drops an element. */
  lemma SortByMembers<T>(s: seq<T>, cmp: (T, T) -> int, x: T)
    ensures x in SortBy(s, cmp) <==> x in s
  {
    assert x in SortBy(s, cmp) <==> x in multiset(SortBy(s, cmp));
    assert x in s <==> x in multiset(s);
  }

  ghost predicate Sorted<T>(s: seq<T>, cmp: (T, T) -> int) {
    forall i, j :: 0 <= i < j < |s| ==> cmp(s[i], s[j]) <= 0
  }

  /** The elements of s that cmp makes equivalent to k, in their order in s. */
  function Equivalents<T>(s: seq<T>, cmp: (T, T) -> int, k: T): seq<T>
    decreases |s|
  {
    if s == [] then []
    else (if cmp(s[0], k) == 0 then [s[0]] else []) + Equivalents(s[1..], cmp, k)
  }

  /** Prepending a lower bound of a sorted sequence keeps it sorted. */
  lemma ConsSorted<T>(a: T, s: seq<T>, cmp: (T, T) -> int)
    requires Sorted(s, cmp)
    requires forall j :: 0 <= j < |s| ==> cmp(a, s[j]) <= 0
    ensures Sorted([a] + s, cmp)
  {
    var r := [a] + s;
    forall i, j | 0 <= i < j < |r| ensures cmp(r[i], r[j]) <= 0 {
      assert r[j] == s[j - 1];
      if i > 0 {
        assert r[i] == s[i - 1];
      }
    }
  }

  /** A lower bound of x and of s is a lower bound of Insert(x, s). */
  lemma {:induction false} InsertLowerBound<T>(b: T, x: T, s: seq<T>, cmp: (T, T) -> int)
    requires cmp(b, x) <= 0
    requires forall j :: 0 <= j < |s| ==> cmp(b, s[j]) <= 0
    ensures forall j :: 0 <= j < |Insert(x, s, cmp)| ==> cmp(b, Insert(x, s, cmp)[j]) <= 0
    decreases |s|
  {
    if s != [] && cmp(x, s[0]) > 0 {
      InsertLowerBound(b, x, s[1..], cmp);
    }
  }

  lemma {:induction false} InsertSorted<T(!new)>(x: T, s: seq<T>, cmp: (T, T) -> int)
    requires TotalPreorder(cmp) && Sorted(s, cmp)
    ensures Sorted(Insert(x, s, cmp), cmp)
    decreases |s|
  {
    if s == [] {
    } else if cmp(x, s[0]) <= 0 {
      forall j | 0 <= j < |s| ensures cmp(x, s[j]) <= 0 {
        if j > 0 {
          assert cmp(s[0], s[j]) <= 0;
        }
      }
      ConsSorted(x, s, cmp);
    } else {
      InsertSorted(x, s[1..], cmp);
      assert cmp(s[0], x) < 0;
      forall j | 0 <= j < |s[1..]| ensures cmp(s[0], s[1..][j]) <= 0 {
        assert s[1..][j] == s[j + 1];
      }
      InsertLowerBound(s[0], x, s[1..], cmp);
      ConsSorted(s[0], Insert(x, s[1..], cmp), cmp);
    }
  }

  /** SortBy's result is in ascending order. */
  lemma {:induction false} SortBySorted<T(!new)>(s: seq<T>, cmp: (T, T) -> int)
    requires TotalPreorder(cmp)
    ensures Sorted(SortBy(s, cmp), cmp)
    decreases |s|
  {
    if s != [] {
      SortBySorted(s[1..], cmp);
      InsertSorted(s[0], SortBy(s[1..], cmp), cmp);
    }
  }

  /** An element strictly below x is not equivalent to anything x is
      equivalent to. */
  lemma BelowNotEquivalent<T(!new)>(cmp: (T, T) -> int, x: T, a: T, k: T)
    requires TotalPreorder(cmp) && cmp(x, a) > 0 && cmp(x, k) == 0
    ensures cmp(a, k) != 0
  {
  }

  lemma EquivalentsCons<T>(h: T, t: seq<T>, cmp: (T, T) -> int, k: T)
    ensures Equivalents([h] + t, cmp, k) == (if cmp(h, k) == 0 then [h] else []) + Equivalents(t, cmp, k)
  {
    assert ([h] + t)[0] == h && ([h] + t)[1..] == t;
  }

  lemma {:induction false} InsertEquivalents<T>(x: T, s: seq<T>, cmp: (T, T) -> int, k: T)
    requires forall a | a in s :: cmp(x, k) == 0 && cmp(x, a) > 0 ==> cmp(a, k) != 0
    ensures Equivalents(Insert(x, s, cmp), cmp, k) ==
            (if cmp(x, k) == 0 then [x] else []) + Equivalents(s, cmp, k)
    decreases |s|
  {
    if s == [] || cmp(x, s[0]) <= 0 {
      EquivalentsCons(x, s, cmp, k);
    } else {
      var t := s[1..];
      var i := Insert(x, t, cmp);
      assert Insert(x, s, cmp) == [s[0]] + i;
      assert s == [s[0]] + t;
      InsertEquivalents(x, t, cmp, k);
      EquivalentsCons(s[0], i, cmp, k);
      EquivalentsCons(s[0], t, cmp, k);
      if cmp(x, k) == 0 {
        assert s[0] in s;
        calc {
          Equivalents([s[0]] + i, cmp, k);
          [] + Equivalents(i, cmp, k);
          [] + ([x] + Equivalents(t, cmp, k));
          [x] + ([] + Equivalents(t, cmp, k));
          [x] + Equivalents(s, cmp, k);
        }
      } else {
        var hs := if cmp(s[0], k) == 0 then [s[0]] else [];
        calc {
          Equivalents([s[0]] + i, cmp, k);
          hs + Equivalents(i, cmp, k);
          hs + ([] + Equivalents(t, cmp, k));
          { assert [] + Equivalents(t, cmp, k) == Equivalents(t, cmp, k); }
          hs + Equivalents(t, cmp, k);
          Equivalents(s, cmp, k);
          [] + Equivalents(s, cmp, k);
        }
      }
    }
  }

  /** SortBy is stable: the elements equivalent to any k appear in the same
      order before and after sorting. */
  lemma {:induction false} SortByStable<T(!new)>(s: seq<T>, cmp: (T, T) -> int, k: T)
    requires TotalPreorder(cmp)
    ensures Equivalents(SortBy(s, cmp), cmp, k) == Equivalents(s, cmp, k)
    decreases |s|
  {
    if s != [] {
      SortByStable(s[1..], cmp, k);
      var t := SortBy(s[1..], cmp);
      forall a | a in t
        ensures cmp(s[0], k) == 0 && cmp(s[0], a) > 0 ==> cmp(a, k) != 0
      {
        if cmp(s[0], k) == 0 && cmp(s[0], a) > 0 {
          BelowNotEquivalent(cmp, s[0], a, k);
        }
      }
      InsertEquivalents(s[0], t, cmp, k);
    }
  }

  lemma SortedTail<T>(s: seq<T>, cmp: (T, T) -> int)
    requires s != [] && Sorted(s, cmp)
    ensures Sorted(s[1..], cmp)
  {
    var t := s[1..];
    forall i, j | 0 <= i < j < |t| ensures cmp(t[i], t[j]) <= 0 {
      assert t[i] == s[i + 1] && t[j] == s[j + 1];
    }
  }

  /** Sorting a sequence that is already in order changes nothing. */
  lemma {:induction false} SortBySortedIsIdentity<T>(s: seq<T>, cmp: (T, T) -> int)
    requires Sorted(s, cmp)
    ensures SortBy(s, cmp) == s
    decreases |s|
  {
    if s != [] {
      var t := s[1..];
      SortedTail(s, cmp);
      SortBySortedIsIdentity(t, cmp);
      assert SortBy(s, cmp) == Insert(s[0], t, cmp);
      if t != [] {
        assert cmp(s[0], s[1]) <= 0;
        assert t[0] == s[1];
      }
      assert s == [s[0]] + t;
    }
  }
}
