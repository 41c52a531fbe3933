/** Wrapper datatypes and the sequence helpers every component shares. */
module Prelude {

  datatype Option<+T> = None | Some(value: T)

  datatype Result<+R, +E> = Success(value: R) | Failure(error: E)

  /** The elements of `s` that satisfy `p`, in order: a list comprehension or a SQL filter. */
  function Filter<T>(p: T -> bool, s: seq<T>): (r: seq<T>)
    ensures |r| <= |s|
  {
    if s == [] then []
    else if p(s[0]) then [s[0]] + Filter(p, s[1..])
    else Filter(p, s[1..])
  }

  function Sum(s: seq<int>): int {
    if s == [] then 0 else s[0] + Sum(s[1..])
  }

  function Map<A, B>(f: A -> B, s: seq<A>): (r: seq<B>)
    ensures |r| == |s|
    ensures forall i | 0 <= i < |s| :: r[i] == f(s[i])
  {
    if s == [] then [] else [f(s[0])] + Map(f, s[1..])
  }

  function Concat<T>(parts: seq<seq<T>>): seq<T> {
    if parts == [] then [] else parts[0] + Concat(parts[1..])
  }

  function FlatMap<A, B>(f: A -> seq<B>, s: seq<A>): seq<B> {
    if s == [] then [] else f(s[0]) + FlatMap(f, s[1..])
  }

  /** The union of the sets `f` gives for the elements of `s`. */
  function UnionMap<A(==), B>(f: A -> set<B>, s: seq<A>): set<B> {
    set x, y | x in s && y in f(x) :: y
  }

  function Count<T>(p: T -> bool, s: seq<T>): (n: nat)
    ensures n <= |s|
  {
    |Filter(p, s)|
  }

  ghost predicate NoDuplicates<T>(s: seq<T>) {
    forall i, j | 0 <= i < j < |s| :: s[i] != s[j]
  }

  /** No two elements share a key. */
  ghost predicate DistinctBy<T, K>(key: T -> K, s: seq<T>) {
    forall i, j | 0 <= i < j < |s| :: key(s[i]) != key(s[j])
  }

  lemma AppendAssoc<T>(a: seq<T>, b: seq<T>, c: seq<T>)
    ensures a + b + c == a + (b + c)
  {
  }

  lemma {:induction false} FilterAppend<T>(p: T -> bool, a: seq<T>, b: seq<T>)
    ensures Filter(p, a + b) == Filter(p, a) + Filter(p, b)
  {
    if a == [] {
      assert a + b == b;
    } else {
      FilterAppend(p, a[1..], b);
      assert (a + b)[0] == a[0] && (a + b)[1..] == a[1..] + b;
      AppendAssoc([a[0]], Filter(p, a[1..]), Filter(p, b));
    }
  }

  lemma {:induction false} FilterMember<T>(p: T -> bool, s: seq<T>, x: T)
    ensures x in Filter(p, s) <==> x in s && p(x)
  {
    if s == [] {
    } else {
      FilterMember(p, s[1..], x);
      assert s == [s[0]] + s[1..];
    }
  }

  lemma {:induction false} FilterAll<T>(p: T -> bool, s: seq<T>)
    requires forall x | x in s :: p(x)
    ensures Filter(p, s) == s
  {
    if s == [] {
    } else {
      FilterAll(p, s[1..]);
    }
  }

  lemma {:induction false} FilterNone<T>(p: T -> bool, s: seq<T>)
    requires forall x | x in s :: !p(x)
    ensures Filter(p, s) == []
  {
    if s == [] {
    } else {
      FilterNone(p, s[1..]);
    }
  }

  /** Two filters that keep the same elements give the same list. */
  lemma {:induction false} FilterCongruent<T>(p: T -> bool, q: T -> bool, s: seq<T>)
    requires forall x | x in s :: p(x) == q(x)
    ensures Filter(p, s) == Filter(q, s)
  {
    if s == [] {
    } else {
      FilterCongruent(p, q, s[1..]);
    }
  }

  lemma {:induction false} FilterCommutes<T>(p: T -> bool, q: T -> bool, s: seq<T>)
    ensures Filter(p, Filter(q, s)) == Filter(q, Filter(p, s))
  {
    if s == [] {
    } else {
      FilterCommutes(p, q, s[1..]);
      var ps, qs := Filter(p, s[1..]), Filter(q, s[1..]);
      assert ([s[0]] + ps)[1..] == ps && ([s[0]] + qs)[1..] == qs;
    }
  }

  lemma {:induction false} FilterMap<A, B>(p: B -> bool, q: A -> bool, f: A -> B, s: seq<A>)
    requires forall x | x in s :: p(f(x)) == q(x)
    ensures Filter(p, Map(f, s)) == Map(f, Filter(q, s))
  {
    if s == [] {
    } else {
      FilterMap(p, q, f, s[1..]);
      assert Map(f, s)[1..] == Map(f, s[1..]);
      assert ([s[0]] + Filter(q, s[1..]))[1..] == Filter(q, s[1..]);
    }
  }

  lemma DropMultiset<T>(s: seq<T>, j: nat)
    requires j < |s|
    ensures multiset(s) == multiset(s[..j] + s[j + 1..]) + multiset{s[j]}
    ensures multiset(s[..j] + s[j + 1..]) == multiset(s) - multiset{s[j]}
  {
    assert s == s[..j] + [s[j]] + s[j + 1..];
  }

  lemma {:induction false} FilterDrop<T>(p: T -> bool, s: seq<T>, j: nat)
    requires j < |s|
    ensures multiset(Filter(p, s)) ==
            multiset(Filter(p, s[..j] + s[j + 1..])) + if p(s[j]) then multiset{s[j]} else multiset{}
  {
    var rest := s[..j] + s[j + 1..];
    if j == 0 {
      assert rest == s[1..];
    } else {
      FilterDrop(p, s[1..], j - 1);
      assert rest[0] == s[0] && rest[1..] == s[1..][..j - 1] + s[1..][j..];
    }
  }

  lemma MapDrop<A, B>(f: A -> B, s: seq<A>, j: nat)
    requires j < |s|
    ensures multiset(Map(f, s)) == multiset(Map(f, s[..j] + s[j + 1..])) + multiset{f(s[j])}
  {
    hide Map;
    var r := Map(f, s);
    assert Map(f, s[..j] + s[j + 1..]) == r[..j] + r[j + 1..];
    DropMultiset(r, j);
  }

  /** Dropping the first element of one arrangement and its counterpart from another. */
  lemma MatchFirst<T>(a: seq<T>, b: seq<T>) returns (j: nat)
    requires a != [] && multiset(a) == multiset(b)
    ensures j < |b| && b[j] == a[0] && multiset(a[1..]) == multiset(b[..j] + b[j + 1..])
  {
    assert a[0] in multiset(b);
    j :| 0 <= j < |b| && b[j] == a[0];
    DropMultiset(b, j);
    assert multiset(a[1..]) == multiset(a) - multiset{a[0]} by {
      assert a == [a[0]] + a[1..];
    }
  }

  /** Selecting from two arrangements of the same elements gives arrangements of the same elements. */
  lemma {:induction false} FilterSameElements<T>(p: T -> bool, a: seq<T>, b: seq<T>)
    requires multiset(a) == multiset(b)
    ensures multiset(Filter(p, a)) == multiset(Filter(p, b))
    decreases |a|
  {
    assert |multiset(a)| == |a| && |multiset(b)| == |b|;
    if a == [] {
    } else {
      var j := MatchFirst(a, b);
      FilterSameElements(p, a[1..], b[..j] + b[j + 1..]);
      FilterDrop(p, b, j);
    }
  }

  lemma {:induction false} MapSameElements<A, B>(f: A -> B, a: seq<A>, b: seq<A>)
    requires multiset(a) == multiset(b)
    ensures multiset(Map(f, a)) == multiset(Map(f, b))
    decreases |a|
  {
    assert |multiset(a)| == |a| && |multiset(b)| == |b|;
    if a == [] {
    } else {
      var j := MatchFirst(a, b);
      MapSameElements(f, a[1..], b[..j] + b[j + 1..]);
      MapDrop(f, b, j);
    }
  }

  /** Two selections in a row are one. */
  lemma {:induction false} FilterTwice<T>(p: T -> bool, q: T -> bool, both: T -> bool, s: seq<T>)
    requires forall x | x in s :: both(x) == (p(x) && q(x))
    ensures Filter(p, Filter(q, s)) == Filter(both, s)
  {
    if s == [] {
    } else {
      FilterTwice(p, q, both, s[1..]);
      assert ([s[0]] + Filter(q, s[1..]))[1..] == Filter(q, s[1..]);
    }
  }

  /** What replacing one element does to the number of selected elements. */
  lemma {:induction false} CountUpdate<T>(p: T -> bool, s: seq<T>, i: nat, x: T)
    requires i < |s|
    ensures Count(p, s[i := x]) + (if p(s[i]) then 1 else 0) == Count(p, s) + (if p(x) then 1 else 0)
  {
    if i > 0 {
      CountUpdate(p, s[1..], i - 1, x);
      assert s[i := x][1..] == s[1..][i - 1 := x];
    } else {
      assert s[i := x][1..] == s[1..];
    }
  }

  lemma {:induction false} ConcatAppend<T>(a: seq<seq<T>>, b: seq<seq<T>>)
    ensures Concat(a + b) == Concat(a) + Concat(b)
  {
    if a == [] {
      assert a + b == b;
    } else {
      assert (a + b)[1..] == a[1..] + b;
      ConcatAppend(a[1..], b);
    }
  }

  lemma {:induction false} FlatMapAppend<A, B>(f: A -> seq<B>, a: seq<A>, b: seq<A>)
    ensures FlatMap(f, a + b) == FlatMap(f, a) + FlatMap(f, b)
  {
    if a == [] {
      assert a + b == b;
    } else {
      FlatMapAppend(f, a[1..], b);
      assert (a + b)[0] == a[0] && (a + b)[1..] == a[1..] + b;
      assert FlatMap(f, a + b) == f(a[0]) + (FlatMap(f, a[1..]) + FlatMap(f, b));
    }
  }

  lemma FlatMapCons<A, B>(f: A -> seq<B>, x: A, a: seq<A>)
    ensures FlatMap(f, [x] + a) == f(x) + FlatMap(f, a)
  {
  }

  lemma FlatMapSnoc<A, B>(f: A -> seq<B>, a: seq<A>, x: A)
    ensures FlatMap(f, a + [x]) == FlatMap(f, a) + f(x)
  {
    FlatMapAppend(f, a, [x]);
    assert [x][1..] == [];
  }

  lemma {:induction false} FlatMapMember<A, B>(f: A -> seq<B>, s: seq<A>, y: B)
    ensures y in FlatMap(f, s) <==> exists x :: x in s && y in f(x)
  {
    if s == [] {
    } else {
      FlatMapMember(f, s[1..], y);
      assert s == [s[0]] + s[1..];
    }
  }

  lemma {:induction false} SumAppend(a: seq<int>, b: seq<int>)
    ensures Sum(a + b) == Sum(a) + Sum(b)
  {
    if a == [] {
      assert a + b == b;
    } else {
      assert (a + b)[1..] == a[1..] + b;
      SumAppend(a[1..], b);
    }
  }

  lemma {:induction false} MapAppend<A, B>(f: A -> B, a: seq<A>, b: seq<A>)
    ensures Map(f, a + b) == Map(f, a) + Map(f, b)
  {
  }

  // ---------- keys ----------

  lemma {:induction false} DistinctByFilter<T, K>(key: T -> K, p: T -> bool, s: seq<T>)
    requires DistinctBy(key, s)
    ensures DistinctBy(key, Filter(p, s))
  {
    if s == [] {
    } else {
      var rest := Filter(p, s[1..]);
      DistinctByFilter(key, p, s[1..]);
      forall k | 0 <= k < |rest|
        ensures key(s[0]) != key(rest[k])
      {
        FilterMember(p, s[1..], rest[k]);
        var j :| 0 <= j < |s[1..]| && s[1..][j] == rest[k];
        assert s[j + 1] == rest[k];
      }
    }
  }

  lemma DistinctBySplit<T, K>(key: T -> K, s: seq<T>, n: nat)
    requires n <= |s| && DistinctBy(key, s)
    ensures DistinctBy(key, s[..n]) && DistinctBy(key, s[n..])
    ensures forall a, b | a in s[..n] && b in s[n..] :: key(a) != key(b)
  {
  }

  lemma DistinctSameIndex<T, K>(key: T -> K, s: seq<T>, i: nat, j: nat)
    requires DistinctBy(key, s) && i < |s| && j < |s| && key(s[i]) == key(s[j])
    ensures i == j
  {
  }

  lemma DistinctByAppend<T, K>(key: T -> K, a: seq<T>, b: seq<T>)
    requires DistinctBy(key, a) && DistinctBy(key, b)
    requires forall i, j | 0 <= i < |a| && 0 <= j < |b| :: key(a[i]) != key(b[j])
    ensures DistinctBy(key, a + b)
  {
  }

  /** Keys stay distinct under rearrangement. */
  lemma {:induction false} DistinctByPermutation<T, K>(key: T -> K, a: seq<T>, b: seq<T>)
    requires multiset(a) == multiset(b) && DistinctBy(key, a)
    ensures DistinctBy(key, b)
    decreases |a|
  {
    assert |multiset(a)| == |a| && |multiset(b)| == |b|;
    if a == [] {
    } else {
      var j := MatchFirst(a, b);
      var rest := b[..j] + b[j + 1..];
      DistinctBySplit(key, a, 1);
      DistinctByPermutation(key, a[1..], rest);
      forall k | 0 <= k < |rest|
        ensures key(rest[k]) != key(b[j])
      {
        assert rest[k] in multiset(rest);
        assert rest[k] in a[1..] && a[0] in a[..1];
      }
      InsertKeepsDistinct(key, b, j, rest);
    }
  }

  lemma InsertKeepsDistinct<T, K>(key: T -> K, s: seq<T>, j: nat, rest: seq<T>)
    requires j < |s| && rest == s[..j] + s[j + 1..] && DistinctBy(key, rest)
    requires forall k | 0 <= k < |rest| :: key(rest[k]) != key(s[j])
    ensures DistinctBy(key, s)
  {
    assert forall i | 0 <= i < j :: s[i] == rest[i];
    assert forall i | j < i < |s| :: s[i] == rest[i - 1];
  }

  /** Two selected elements keep their order in the selection. */
  lemma {:induction false} FilterPositions<T>(p: T -> bool, s: seq<T>, i: nat, j: nat) returns (a: nat, b: nat)
    requires i < j < |s| && p(s[i]) && p(s[j])
    ensures a < b < |Filter(p, s)| && Filter(p, s)[a] == s[i] && Filter(p, s)[b] == s[j]
  {
    var rest := Filter(p, s[1..]);
    if i > 0 {
      a, b := FilterPositions(p, s[1..], i - 1, j - 1);
      if p(s[0]) {
        a, b := a + 1, b + 1;
      }
    } else {
      FilterMember(p, s[1..], s[j]);
      assert s[j] == s[1..][j - 1];
      var k :| 0 <= k < |rest| && rest[k] == s[j];
      a, b := 0, k + 1;
    }
  }

  lemma CountSnoc<T>(p: T -> bool, s: seq<T>, x: T)
    ensures Count(p, s + [x]) == Count(p, s) + if p(x) then 1 else 0
  {
    FilterAppend(p, s, [x]);
    assert [x][1..] == [];
  }

  lemma CountAppend<T>(p: T -> bool, a: seq<T>, b: seq<T>)
    ensures Count(p, a + b) == Count(p, a) + Count(p, b)
  {
    FilterAppend(p, a, b);
  }

  lemma CountPositive<T>(p: T -> bool, s: seq<T>)
    ensures Count(p, s) > 0 <==> exists x :: x in s && p(x)
  {
    var f := Filter(p, s);
    if f != [] {
      FilterMember(p, s, f[0]);
    }
    if x :| x in s && p(x) {
      FilterMember(p, s, x);
    }
  }

  lemma {:induction false} CountPointwise<T>(p: T -> bool, before: seq<T>, after: seq<T>)
    requires |after| == |before| && forall i | 0 <= i < |before| :: p(after[i]) ==> p(before[i])
    ensures Count(p, after) <= Count(p, before)
  {
    if before == [] {
    } else {
      CountPointwise(p, before[1..], after[1..]);
    }
  }

  lemma {:induction false} TwoSelected<T>(p: T -> bool, s: seq<T>, i: nat, j: nat)
    requires i < j < |s| && p(s[i]) && p(s[j])
    ensures |Filter(p, s)| >= 2
  {
    if i > 0 {
      TwoSelected(p, s[1..], i - 1, j - 1);
    } else {
      FilterMember(p, s[1..], s[j]);
      assert s[j] == s[1..][j - 1];
    }
  }

  lemma {:induction false} TwoIndices<T>(p: T -> bool, s: seq<T>) returns (i: nat, j: nat)
    requires |Filter(p, s)| >= 2
    ensures i < j < |s| && p(s[i]) && p(s[j])
  {
    if p(s[0]) {
      var rest := Filter(p, s[1..]);
      FilterMember(p, s[1..], rest[0]);
      var k :| 0 <= k < |s[1..]| && s[1..][k] == rest[0];
      i, j := 0, k + 1;
    } else {
      i, j := TwoIndices(p, s[1..]);
      i, j := i + 1, j + 1;
    }
  }

  // ---------- sums ----------

  lemma SumMapAppend<T>(w: T -> int, a: seq<T>, b: seq<T>)
    ensures Sum(Map(w, a + b)) == Sum(Map(w, a)) + Sum(Map(w, b))
  {
    MapAppend(w, a, b);
    SumAppend(Map(w, a), Map(w, b));
  }

  lemma SumMapSnoc<T>(w: T -> int, a: seq<T>, x: T)
    ensures Sum(Map(w, a + [x])) == Sum(Map(w, a)) + w(x)
  {
    SumMapAppend(w, a, [x]);
    assert [x][1..] == [] && Map(w, [x]) == [w(x)] && [w(x)][1..] == [];
  }

  lemma {:induction false} SumSameElements(a: seq<int>, b: seq<int>)
    requires multiset(a) == multiset(b)
    ensures Sum(a) == Sum(b)
    decreases |a|
  {
    assert |multiset(a)| == |a| && |multiset(b)| == |b|;
    if a == [] {
    } else {
      var j := MatchFirst(a, b);
      SumSameElements(a[1..], b[..j] + b[j + 1..]);
      SumAppend(b[..j], b[j + 1..]);
      SumAppend(b[..j], b[j..]);
      assert b == b[..j] + b[j..] && b[j..][1..] == b[j + 1..];
    }
  }

  lemma SumMapSameElements<T>(w: T -> int, a: seq<T>, b: seq<T>)
    requires multiset(a) == multiset(b)
    ensures Sum(Map(w, a)) == Sum(Map(w, b))
  {
    MapSameElements(w, a, b);
    SumSameElements(Map(w, a), Map(w, b));
  }

  // ---------- selections by position ----------

  /** `picks` are the positions of the elements that satisfy `p`, in order. */
  ghost predicate Selects<T>(p: T -> bool, s: seq<T>, picks: seq<nat>) {
    && (forall k, l | 0 <= k < l < |picks| :: picks[k] < picks[l])
    && (forall i: nat :: i in picks <==> i < |s| && p(s[i]))
  }

  lemma {:induction false} FilterSelects<T>(p: T -> bool, s: seq<T>) returns (picks: seq<nat>)
    ensures Selects(p, s, picks) && |picks| == |Filter(p, s)|
    ensures forall k | 0 <= k < |picks| :: picks[k] < |s| && Filter(p, s)[k] == s[picks[k]]
  {
    if s == [] {
      picks := [];
    } else {
      var n := |s| - 1;
      var front := FilterSelects(p, s[..n]);
      assert s == s[..n] + [s[n]];
      FilterAppend(p, s[..n], [s[n]]);
      assert [s[n]][1..] == [];
      picks := if p(s[n]) then front + [n] else front;
      SelectsSnoc(p, s[..n], s[n], front);
    }
  }

  lemma SelectsSnoc<T>(p: T -> bool, s: seq<T>, x: T, picks: seq<nat>)
    requires Selects(p, s, picks)
    ensures Selects(p, s + [x], if p(x) then picks + [|s|] else picks)
  {
    var after := if p(x) then picks + [|s|] else picks;
    forall k, l | 0 <= k < l < |after|
      ensures after[k] < after[l]
    {
      assert picks[k] in picks;
    }
    forall i: nat
      ensures i in after <==> i < |s + [x]| && p((s + [x])[i])
    {
      assert i in after <==> i in picks || (p(x) && i == |s|);
    }
  }

  ghost function Positions<T>(p: T -> bool, s: seq<T>): set<int> {
    set i | 0 <= i < |s| && p(s[i])
  }

  /** A count is the number of positions counted. */
  lemma {:induction false} CountIsPositions<T>(p: T -> bool, s: seq<T>)
    ensures Count(p, s) == |Positions(p, s)|
  {
    if s == [] {
      assert Positions(p, s) == {};
    } else {
      var n := |s| - 1;
      assert s == s[..n] + [s[n]];
      CountIsPositions(p, s[..n]);
      CountSnoc(p, s[..n], s[n]);
      assert Positions(p, s) == if p(s[n]) then Positions(p, s[..n]) + {n} else Positions(p, s[..n]);
    }
  }
}
