/** Stable sorting by a total preorder, as Python's `sorted`, `list.sort` and SQL `ORDER BY` do it. */
module Sorting {
  import opened Prelude

  ghost predicate TotalPreorder<T(!new)>(le: (T, T) -> bool) {
    && (forall x, y :: le(x, y) || le(y, x))
    && (forall x, y, z :: le(x, y) && le(y, z) ==> le(x, z))
  }

  ghost predicate Sorted<T>(le: (T, T) -> bool, s: seq<T>) {
    forall i, j | 0 <= i < j < |s| :: le(s[i], s[j])
  }

  function Insert<T>(le: (T, T) -> bool, x: T, s: seq<T>): seq<T> {
    if s == [] || le(x, s[0]) then [x] + s else [s[0]] + Insert(le, x, s[1..])
  }

  /** Elements that compare equal keep their order. */
  function Sort<T>(le: (T, T) -> bool, s: seq<T>): seq<T> {
    if s == [] then [] else Insert(le, s[0], Sort(le, s[1..]))
  }

  lemma {:induction false} InsertPermutes<T>(le: (T, T) -> bool, x: T, s: seq<T>)
    ensures multiset(Insert(le, x, s)) == multiset{x} + multiset(s)
  {
    if s == [] || le(x, s[0]) {
    } else {
      InsertPermutes(le, x, s[1..]);
      assert s == [s[0]] + s[1..];
    }
  }

  lemma {:induction false} InsertSorted<T(!new)>(le: (T, T) -> bool, x: T, s: seq<T>)
    requires TotalPreorder(le) && Sorted(le, s)
    ensures Sorted(le, Insert(le, x, s))
  {
    if s == [] {
    } else {
      if le(x, s[0]) {
        assert forall i | 0 < i < |s| :: le(s[0], s[i]) && le(x, s[i]);
      } else {
        InsertSorted(le, x, s[1..]);
        InsertPermutes(le, x, s[1..]);
        var r := Insert(le, x, s[1..]);
        forall i | 0 <= i < |r|
          ensures le(s[0], r[i])
        {
          assert r[i] in multiset(r);
          assert r[i] == x || r[i] in s[1..];
        }
      }
    }
  }

  lemma {:induction false} SortPermutes<T>(le: (T, T) -> bool, s: seq<T>)
    ensures multiset(Sort(le, s)) == multiset(s)
  {
    if s == [] {
    } else {
      SortPermutes(le, s[1..]);
      InsertPermutes(le, s[0], Sort(le, s[1..]));
      assert s == [s[0]] + s[1..];
    }
  }

  lemma {:induction false} SortSorted<T(!new)>(le: (T, T) -> bool, s: seq<T>)
    requires TotalPreorder(le)
    ensures Sorted(le, Sort(le, s))
  {
    if s == [] {
    } else {
      SortSorted(le, s[1..]);
      InsertSorted(le, s[0], Sort(le, s[1..]));
    }
  }

  lemma SortMember<T>(le: (T, T) -> bool, s: seq<T>, x: T)
    ensures x in Sort(le, s) <==> x in s
  {
    SortPermutes(le, s);
    assert x in multiset(s) <==> x in s;
    assert x in multiset(Sort(le, s)) <==> x in Sort(le, s);
  }

  /** When the order is antisymmetric on the elements at hand, a sorted arrangement is unique. */
  lemma {:induction false} SortedUnique<T(!new)>(le: (T, T) -> bool, a: seq<T>, b: seq<T>)
    requires multiset(a) == multiset(b) && Sorted(le, a) && Sorted(le, b)
    requires forall x, y | x in a && y in a && le(x, y) && le(y, x) :: x == y
    ensures a == b
  {
    assert |multiset(a)| == |a| && |multiset(b)| == |b|;
    if a == [] {
    } else {
      SortedUniqueHead(le, a, b);
      TailMultiset(a);
      TailMultiset(b);
      SortedUnique(le, a[1..], b[1..]);
    }
  }

  lemma TailMultiset<T>(s: seq<T>)
    requires s != []
    ensures s == [s[0]] + s[1..] && multiset(s[1..]) == multiset(s) - multiset{s[0]}
  {
  }

  lemma SortedUniqueHead<T(!new)>(le: (T, T) -> bool, a: seq<T>, b: seq<T>)
    requires a != [] && b != [] && multiset(a) == multiset(b) && Sorted(le, a) && Sorted(le, b)
    requires forall x, y | x in a && y in a && le(x, y) && le(y, x) :: x == y
    ensures a[0] == b[0]
  {
    assert a[0] in multiset(a) && b[0] in multiset(b);
    assert a[0] in b && b[0] in a;
    var i :| 0 <= i < |a| && a[i] == b[0];
    var j :| 0 <= j < |b| && b[j] == a[0];
    if i != 0 && j != 0 {
      assert le(a[0], a[i]) && le(b[0], b[j]);
    }
  }

  /** The order of the input does not matter to a sort whose order tells all elements apart. */
  lemma SortOrderIndependent<T(!new)>(le: (T, T) -> bool, a: seq<T>, b: seq<T>)
    requires TotalPreorder(le) && multiset(a) == multiset(b)
    requires forall x, y | x in a && y in a && le(x, y) && le(y, x) :: x == y
    ensures Sort(le, a) == Sort(le, b)
  {
    SortPermutes(le, a);
    SortPermutes(le, b);
    SortSorted(le, a);
    SortSorted(le, b);
    forall x | x in Sort(le, a)
      ensures x in a
    {
      SortMember(le, a, x);
    }
    SortedUnique(le, Sort(le, a), Sort(le, b));
  }

  lemma {:induction false} FilterInsert<T(!new)>(p: T -> bool, le: (T, T) -> bool, x: T, s: seq<T>)
    requires TotalPreorder(le) && Sorted(le, s)
    ensures Filter(p, Insert(le, x, s)) == if p(x) then Insert(le, x, Filter(p, s)) else Filter(p, s)
  {
    if s == [] {
    } else {
      if le(x, s[0]) {
        var f := Filter(p, s);
        if f != [] {
          FilterMember(p, s, f[0]);
          assert le(x, f[0]);
        }
        assert ([x] + s)[1..] == s;
      } else {
        FilterInsert(p, le, x, s[1..]);
        assert Insert(le, x, s)[1..] == Insert(le, x, s[1..]);
        if p(x) && !p(s[0]) {
          assert Filter(p, s) == Filter(p, s[1..]);
        }
      }
    }
  }

  /** Selecting before or after a stable sort gives the same list. */
  lemma {:induction false} FilterSort<T(!new)>(p: T -> bool, le: (T, T) -> bool, s: seq<T>)
    requires TotalPreorder(le)
    ensures Filter(p, Sort(le, s)) == Sort(le, Filter(p, s))
  {
    if s == [] {
    } else {
      FilterSort(p, le, s[1..]);
      SortSorted(le, s[1..]);
      FilterInsert(p, le, s[0], Sort(le, s[1..]));
      if p(s[0]) {
        assert Filter(p, s)[0] == s[0] && Filter(p, s)[1..] == Filter(p, s[1..]);
      } else {
        assert Filter(p, s) == Filter(p, s[1..]);
      }
    }
  }

  lemma {:induction false} SortOfTied<T>(le: (T, T) -> bool, s: seq<T>)
    requires forall x, y | x in s && y in s :: le(x, y)
    ensures Sort(le, s) == s
  {
    if s == [] {
    } else {
      assert s[0] in s && forall x | x in s[1..] :: x in s;
      SortOfTied(le, s[1..]);
      assert s[1..] != [] ==> s[1] in s;
    }
  }

  /** The sort is stable: elements the order does not tell apart keep their order. */
  lemma SortStable<T(!new)>(p: T -> bool, le: (T, T) -> bool, s: seq<T>)
    requires TotalPreorder(le) && forall x, y | p(x) && p(y) :: le(x, y)
    ensures Filter(p, Sort(le, s)) == Filter(p, s)
  {
    FilterSort(p, le, s);
    forall x | x in Filter(p, s)
      ensures p(x)
    {
      FilterMember(p, s, x);
    }
    SortOfTied(le, Filter(p, s));
  }

  // ---------- lexicographic order on strings ----------

  predicate StringLe(a: string, b: string) {
    a == "" || (b != "" && (a[0] < b[0] || (a[0] == b[0] && StringLe(a[1..], b[1..]))))
  }

  lemma {:induction false} StringLeTotal(a: string, b: string)
    ensures StringLe(a, b) || StringLe(b, a)
  {
    if a == "" || b == "" {
    } else {
      StringLeTotal(a[1..], b[1..]);
    }
  }

  lemma {:induction false} StringLeAntisymmetric(a: string, b: string)
    requires StringLe(a, b) && StringLe(b, a)
    ensures a == b
  {
    if a == "" || b == "" {
    } else {
      StringLeAntisymmetric(a[1..], b[1..]);
      assert a == [a[0]] + a[1..] && b == [b[0]] + b[1..];
    }
  }

  lemma {:induction false} StringLeTransitive(a: string, b: string, c: string)
    requires StringLe(a, b) && StringLe(b, c)
    ensures StringLe(a, c)
  {
    if a == "" || !(a[0] == b[0] == c[0]) {
    } else {
      StringLeTransitive(a[1..], b[1..], c[1..]);
    }
  }

  /** The first difference is at `k`, where `a` is smaller. */
  predicate SmallerAt(a: string, b: string, k: int) {
    0 <= k < |a| && k < |b| && a[..k] == b[..k] && a[k] < b[k]
  }

  /** A prefix, or smaller at the first difference. */
  predicate AtOrBefore(a: string, b: string) {
    a <= b || exists k :: 0 <= k < |a| && SmallerAt(a, b, k)
  }

  /** The recursive comparison is the alphabetical order. */
  lemma {:induction false} StringLeIff(a: string, b: string)
    ensures StringLe(a, b) <==> AtOrBefore(a, b)
  {
    if a == "" || b == "" {
    } else {
      StringLeIff(a[1..], b[1..]);
      hide StringLe;
      AtOrBeforeCons(a, b);
      StringLeCons(a, b);
    }
  }

  lemma StringLeCons(a: string, b: string)
    requires a != "" && b != ""
    ensures StringLe(a, b) <==> a[0] < b[0] || (a[0] == b[0] && StringLe(a[1..], b[1..]))
  {
  }

  lemma SmallerAtCons(a: string, b: string, k: int)
    requires a != "" && b != ""
    ensures SmallerAt(a, b, k) <==> if k == 0 then a[0] < b[0] else a[0] == b[0] && SmallerAt(a[1..], b[1..], k - 1)
  {
    if 0 < k < |a| && k < |b| {
      assert a[..k] == [a[0]] + a[1..][..k - 1] && b[..k] == [b[0]] + b[1..][..k - 1];
      assert a[1..][..k - 1] == a[..k][1..] && b[1..][..k - 1] == b[..k][1..];
    }
  }

  lemma AtOrBeforeCons(a: string, b: string)
    requires a != "" && b != ""
    ensures AtOrBefore(a, b) <==> a[0] < b[0] || (a[0] == b[0] && AtOrBefore(a[1..], b[1..]))
  {
    hide SmallerAt;
    var s, t := a[1..], b[1..];
    assert a == [a[0]] + s && b == [b[0]] + t;
    SmallerAtCons(a, b, 0);
    if k :| 0 <= k < |s| && SmallerAt(s, t, k) {
      SmallerAtCons(a, b, k + 1);
    }
    if k :| 0 <= k < |a| && SmallerAt(a, b, k) {
      SmallerAtCons(a, b, k);
    }
  }
}
