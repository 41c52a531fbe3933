/** What an assembled injection holds and in which order, said of the result alone: higher scores first, then higher
    confidence, then the smaller id; and a fact is missing only when the better ones leave no room. */
module InjectionOrder {
  import opened Prelude
  import opened Lanes
  import opened Sorting
  import opened Retrieval
  import TextNorm

  // ---------- the orders, spelled out ----------

  /** Confidence falls, or ties and the id grows. */
  predicate FactPrecedes(a: Candidate, b: Candidate) {
    a.confidence > b.confidence || (a.confidence == b.confidence && AtOrBefore(a.id, b.id))
  }

  /** The score falls, or ties and the facts are in order. */
  predicate Precedes(a: Scored, b: Scored) {
    a.score > b.score || (a.score == b.score && FactPrecedes(a.candidate, b.candidate))
  }

  lemma RankLeIff(a: Scored, b: Scored)
    ensures RankLe(a, b) <==> Precedes(a, b)
    ensures IdentityLe(a.candidate, b.candidate) <==> FactPrecedes(a.candidate, b.candidate)
  {
    StringLeIff(a.candidate.id, b.candidate.id);
  }

  // ---------- relevant facts ----------

  /** Characters that a pick takes away from `sc`: those of a pick of its lane that comes before it. */
  function TakenBefore(sc: Scored): Scored -> int {
    (x: Scored) =>
      if x.candidate.lane == sc.candidate.lane && x.candidate.id != sc.candidate.id && Precedes(x, sc)
      then |x.candidate.content| + 3 else 0
  }

  ghost predicate InOrder(s: seq<Scored>) {
    forall i, j | 0 <= i < j < |s| :: Precedes(s[i], s[j])
  }

  lemma RankedInOrder(score: Candidate -> real, candidates: seq<Candidate>, minScore: real)
    ensures InOrder(RankedRelevant(score, minScore, candidates))
  {
    hide RankLe, Precedes;
    var scored := Map(WithScore(score), Filter(IsInjectable, candidates));
    RankLeTotal();
    FilterSort(AtLeast(minScore), RankLe, scored);
    SortSorted(RankLe, Filter(AtLeast(minScore), scored));
    var ranked := RankedRelevant(score, minScore, candidates);
    forall i, j | 0 <= i < j < |ranked|
      ensures Precedes(ranked[i], ranked[j])
    {
      RankLeIff(ranked[i], ranked[j]);
    }
  }

  lemma {:induction false} GreedyInOrder(budget: int, picked: seq<Scored>, ranked: seq<Scored>)
    requires InOrder(picked + ranked)
    ensures InOrder(Greedy(budget, picked, ranked))
    decreases |ranked|
  {
    if ranked == [] {
      assert picked + [] == picked;
    } else {
      hide Precedes, LaneCost;
      var sc, rest, all := ranked[0], ranked[1..], picked + ranked;
      assert picked + [sc] + rest == all;
      SkipInOrder(picked, sc, rest);
      GreedyInOrder(budget, picked, rest);
      GreedyInOrder(budget, picked + [sc], rest);
    }
  }

  lemma SkipInOrder(a: seq<Scored>, sc: Scored, b: seq<Scored>)
    requires InOrder(a + [sc] + b)
    ensures InOrder(a + b)
  {
    hide Precedes;
    var all, less := a + [sc] + b, a + b;
    forall i, j | 0 <= i < j < |less|
      ensures Precedes(less[i], less[j])
    {
      assert less[i] == all[if i < |a| then i else i + 1];
      assert less[j] == all[if j < |a| then j else j + 1];
    }
  }

  /** Among the relevant facts the score falls, or ties and the confidence falls, or both tie and the id grows. */
  lemma RelevantInOrder(score: Candidate -> real, candidates: seq<Candidate>, budget: int, minScore: real)
    ensures
      var relevant := AssembleBy(score, candidates, budget, minScore).relevant;
      forall i, j | 0 <= i < j < |relevant| ::
        || relevant[i].score > relevant[j].score
        || (relevant[i].score == relevant[j].score
            && (relevant[i].candidate.confidence > relevant[j].candidate.confidence
                || (relevant[i].candidate.confidence == relevant[j].candidate.confidence
                    && AtOrBefore(relevant[i].candidate.id, relevant[j].candidate.id))))
  {
    hide Greedy, RankedRelevant, AtOrBefore;
    var ranked := RankedRelevant(score, minScore, candidates);
    RankedInOrder(score, candidates, minScore);
    assert [] + ranked == ranked;
    GreedyInOrder(budget, [], ranked);
  }

  lemma {:induction false} GreedyDistinct(budget: int, picked: seq<Scored>, ranked: seq<Scored>)
    requires DistinctBy(ScoredId, picked + ranked)
    ensures DistinctBy(ScoredId, Greedy(budget, picked, ranked))
    decreases |ranked|
  {
    if ranked == [] {
      assert picked + [] == picked;
    } else {
      hide LaneCost;
      var sc, rest, all := ranked[0], ranked[1..], picked + ranked;
      assert picked + [sc] + rest == all;
      SkipDistinct(picked, sc, rest);
      hide DistinctBy;
      GreedyDistinct(budget, picked, rest);
      GreedyDistinct(budget, picked + [sc], rest);
    }
  }

  lemma SkipDistinct(a: seq<Scored>, sc: Scored, b: seq<Scored>)
    requires DistinctBy(ScoredId, a + [sc] + b)
    ensures DistinctBy(ScoredId, a + b)
  {
    var all, less := a + [sc] + b, a + b;
    forall i, j | 0 <= i < j < |less|
      ensures ScoredId(less[i]) != ScoredId(less[j])
    {
      assert less[i] == all[if i < |a| then i else i + 1];
      assert less[j] == all[if j < |a| then j else j + 1];
    }
  }

  /** No fact is injected twice. */
  lemma InjectedOnce(score: Candidate -> real, candidates: seq<Candidate>, budget: int, minScore: real)
    requires DistinctBy(IdOf, candidates)
    ensures
      var r := AssembleBy(score, candidates, budget, minScore);
      && (forall i, j | 0 <= i < j < |r.relevant| :: r.relevant[i].candidate.id != r.relevant[j].candidate.id)
      && (forall i, j | 0 <= i < j < |r.identity| :: r.identity[i].id != r.identity[j].id)
  {
    hide Greedy, RankedRelevant, FittingPrefix, Sort, DistinctBy;
    var ranked, own := RankedRelevant(score, minScore, candidates), Filter(IsIdentity, candidates);
    RankedIsDistinct(score, candidates, minScore);
    assert [] + ranked == ranked;
    GreedyDistinct(budget, [], ranked);
    DistinctByFilter(IdOf, IsIdentity, candidates);
    SortPermutes(IdentityLe, own);
    DistinctByPermutation(IdOf, own, SortedIdentity(candidates));
    FittingPrefixIs(budget, 0, SortedIdentity(candidates));
    KeysDiffer(Greedy(budget, [], ranked), SortedIdentity(candidates));
  }

  lemma KeysDiffer(relevant: seq<Scored>, identity: seq<Candidate>)
    requires DistinctBy(ScoredId, relevant) && DistinctBy(IdOf, identity)
    ensures forall i, j | 0 <= i < j < |relevant| :: relevant[i].candidate.id != relevant[j].candidate.id
    ensures forall i, j | 0 <= i < j < |identity| :: identity[i].id != identity[j].id
  {
    assert forall i, j | 0 <= i < j < |relevant| :: ScoredId(relevant[i]) != ScoredId(relevant[j]);
    assert forall i, j | 0 <= i < j < |identity| :: IdOf(identity[i]) != IdOf(identity[j]);
  }

  lemma {:induction false} GreedyTail(budget: int, picked: seq<Scored>, ranked: seq<Scored>)
    ensures
      var all := Greedy(budget, picked, ranked);
      |picked| <= |all| && all[..|picked|] == picked && forall sc | sc in all[|picked|..] :: sc in ranked
    decreases |ranked|
  {
    if ranked == [] {
    } else {
      hide LaneCost;
      var sc, rest := ranked[0], ranked[1..];
      GreedyTail(budget, picked, rest);
      GreedyTail(budget, picked + [sc], rest);
      var taken := Greedy(budget, picked + [sc], rest);
      assert taken[..|picked|] == taken[..|picked| + 1][..|picked|] == picked;
      assert taken[|picked|] == taken[..|picked| + 1][|picked|] == sc;
      assert taken[|picked|..] == [sc] + taken[|picked| + 1..];
    }
  }

  lemma {:induction false} AllTaken(sc: Scored, picked: seq<Scored>)
    requires forall x | x in picked :: x.candidate.id != sc.candidate.id && Precedes(x, sc)
    ensures Sum(Map(TakenBefore(sc), picked)) == LaneCost(sc.candidate.lane, picked)
  {
    hide Precedes;
    if picked == [] {
    } else {
      var front, last := picked[..|picked| - 1], picked[|picked| - 1];
      assert picked == front + [last] && last in picked && forall x | x in front :: x in picked;
      AllTaken(sc, front);
      LaneCostSnoc(sc.candidate.lane, front, last);
      SumMapSnoc(TakenBefore(sc), front, last);
    }
  }

  lemma {:induction false} NoneTaken(sc: Scored, picked: seq<Scored>)
    requires forall x | x in picked :: x.candidate.id == sc.candidate.id || !Precedes(x, sc)
    ensures Sum(Map(TakenBefore(sc), picked)) == 0
  {
    hide Precedes;
    if picked == [] {
    } else {
      var front, last := picked[..|picked| - 1], picked[|picked| - 1];
      assert picked == front + [last] && last in picked && forall x | x in front :: x in picked;
      NoneTaken(sc, front);
      SumMapSnoc(TakenBefore(sc), front, last);
    }
  }

  /** The picks that come before the k-th ranked fact are those made when its turn came. */
  lemma TakenAtTurn(budget: int, ranked: seq<Scored>, k: nat)
    requires k < |ranked| && InOrder(ranked) && DistinctBy(ScoredId, ranked)
    ensures Sum(Map(TakenBefore(ranked[k]), Greedy(budget, [], ranked)))
         == LaneCost(ranked[k].candidate.lane, Greedy(budget, [], ranked[..k]))
  {
    hide LaneCost, Sum, Greedy, DistinctBy, Precedes;
    var sc := ranked[k];
    var better, all := Greedy(budget, [], ranked[..k]), Greedy(budget, [], ranked);
    assert ranked == ranked[..k] + ranked[k..];
    GreedyAppend(budget, [], ranked[..k], ranked[k..]);
    GreedyTail(budget, better, ranked[k..]);
    var rest := all[|better|..];
    assert all == better + rest;
    forall x | x in better
      ensures x.candidate.id != sc.candidate.id && Precedes(x, sc)
    {
      GreedyMember(budget, [], ranked[..k], x);
      BeforeIsAbove(ranked, k, x);
    }
    forall x | x in rest
      ensures x.candidate.id == sc.candidate.id || !Precedes(x, sc)
    {
      BehindIsBelow(ranked, k, x);
    }
    AllTaken(sc, better);
    NoneTaken(sc, rest);
    SumMapAppend(TakenBefore(sc), better, rest);
  }

  lemma BeforeIsAbove(ranked: seq<Scored>, k: nat, x: Scored)
    requires k < |ranked| && InOrder(ranked) && DistinctBy(ScoredId, ranked) && x in ranked[..k]
    ensures x.candidate.id != ranked[k].candidate.id && Precedes(x, ranked[k])
  {
    hide Precedes;
    var i :| 0 <= i < k && ranked[i] == x;
    assert ScoredId(ranked[i]) != ScoredId(ranked[k]);
  }

  lemma BehindIsBelow(ranked: seq<Scored>, k: nat, x: Scored)
    requires k < |ranked| && InOrder(ranked) && DistinctBy(ScoredId, ranked) && x in ranked[k..]
    ensures x.candidate.id == ranked[k].candidate.id || !Precedes(x, ranked[k])
  {
    var i :| 0 <= i < |ranked[k..]| && ranked[k..][i] == x;
    if i > 0 {
      assert Precedes(ranked[k], ranked[k + i]) && ScoredId(ranked[k]) != ScoredId(ranked[k + i]);
      PrecedesBothWays(ranked[k], x);
    }
  }

  lemma PrecedesBothWays(a: Scored, b: Scored)
    ensures Precedes(a, b) && Precedes(b, a) ==> a.candidate.id == b.candidate.id
  {
    StringLeIff(a.candidate.id, b.candidate.id);
    StringLeIff(b.candidate.id, a.candidate.id);
    if StringLe(a.candidate.id, b.candidate.id) && StringLe(b.candidate.id, a.candidate.id) {
      StringLeAntisymmetric(a.candidate.id, b.candidate.id);
    }
  }

  /** A fact outside the identity and authorization lanes whose score reaches the threshold is injected exactly when it
      fits its lane's budget beside the injected facts of that lane that come before it: those with a higher score, or
      the same score and a higher confidence, or the same score and confidence and a smaller id. */
  lemma InjectedIffFits(score: Candidate -> real, candidates: seq<Candidate>, budget: int, minScore: real, c: Candidate)
    requires DistinctBy(IdOf, candidates) && c in candidates
    requires c.lane != Identity && c.lane != Authorization && score(c) >= minScore
    ensures
      var relevant := AssembleBy(score, candidates, budget, minScore).relevant;
      Scored(c, score(c)) in relevant <==>
        Sum(Map(TakenBefore(Scored(c, score(c))), relevant)) + |c.content| + 3 <= budget
  {
    hide Greedy, LaneCost, Sum, Precedes, DistinctBy;
    var ranked, sc := RankedRelevant(score, minScore, candidates), Scored(c, score(c));
    var k := RankOf(score, candidates, minScore, c);
    hide RankedRelevant;
    RankedInOrder(score, candidates, minScore);
    RankedIsDistinct(score, candidates, minScore);
    PickedIffRoom(score, candidates, budget, minScore, k);
    TakenAtTurn(budget, ranked, k);
  }

  lemma RankOf(score: Candidate -> real, candidates: seq<Candidate>, minScore: real, c: Candidate) returns (k: nat)
    requires c in candidates && c.lane != Identity && c.lane != Authorization && score(c) >= minScore
    ensures k < |RankedRelevant(score, minScore, candidates)|
    ensures RankedRelevant(score, minScore, candidates)[k] == Scored(c, score(c))
  {
    var injectable, sc := Filter(IsInjectable, candidates), Scored(c, score(c));
    var scored := Map(WithScore(score), injectable);
    FilterMember(IsInjectable, candidates, c);
    var i :| 0 <= i < |injectable| && injectable[i] == c;
    assert scored[i] == sc;
    SortMember(RankLe, scored, sc);
    FilterMember(AtLeast(minScore), Rank(score, injectable), sc);
    k :| 0 <= k < |RankedRelevant(score, minScore, candidates)| && RankedRelevant(score, minScore, candidates)[k] == sc;
  }

  // ---------- identity facts ----------

  /** Characters of an identity fact that comes before `c`. */
  function AheadOf(c: Candidate): Candidate -> int {
    (x: Candidate) =>
      if x.lane == Identity && x.id != c.id && FactPrecedes(x, c) then |x.content| + 3 else 0
  }

  lemma SortedIdentityInOrder(candidates: seq<Candidate>)
    ensures var sorted := SortedIdentity(candidates);
            forall i, j | 0 <= i < j < |sorted| :: FactPrecedes(sorted[i], sorted[j])
  {
    hide IdentityLe, FactPrecedes;
    var sorted := SortedIdentity(candidates);
    IdentityLeTotal();
    SortSorted(IdentityLe, Filter(IsIdentity, candidates));
    forall i, j | 0 <= i < j < |sorted|
      ensures FactPrecedes(sorted[i], sorted[j])
    {
      RankLeIff(Scored(sorted[i], 0.0), Scored(sorted[j], 0.0));
    }
  }

  /** In the identity section the confidence falls, or ties and the id grows. */
  lemma IdentityInOrder(score: Candidate -> real, candidates: seq<Candidate>, budget: int, minScore: real)
    ensures
      var identity := AssembleBy(score, candidates, budget, minScore).identity;
      forall i, j | 0 <= i < j < |identity| ::
        || identity[i].confidence > identity[j].confidence
        || (identity[i].confidence == identity[j].confidence && AtOrBefore(identity[i].id, identity[j].id))
  {
    hide SortedIdentity, FittingPrefix, AtOrBefore;
    SortedIdentityInOrder(candidates);
    FittingPrefixIs(budget, 0, SortedIdentity(candidates));
  }

  lemma {:induction false} AheadInPrefix(c: Candidate, front: seq<Candidate>)
    requires forall x | x in front :: x.lane == Identity && x.id != c.id && FactPrecedes(x, c)
    ensures Sum(Map(AheadOf(c), front)) == TotalCost(front)
  {
    hide FactPrecedes;
    if front == [] {
    } else {
      var init, last := front[..|front| - 1], front[|front| - 1];
      assert front == init + [last] && last in front && forall x | x in init :: x in front;
      AheadInPrefix(c, init);
      TotalCostSnoc(init, last);
      SumMapSnoc(AheadOf(c), init, last);
    }
  }

  lemma {:induction false} NoneAhead(c: Candidate, s: seq<Candidate>)
    requires forall x | x in s :: x.lane != Identity || x.id == c.id || !FactPrecedes(x, c)
    ensures Sum(Map(AheadOf(c), s)) == 0
  {
    hide FactPrecedes;
    if s == [] {
    } else {
      var init, last := s[..|s| - 1], s[|s| - 1];
      assert s == init + [last] && last in s && forall x | x in init :: x in s;
      NoneAhead(c, init);
      SumMapSnoc(AheadOf(c), init, last);
    }
  }

  lemma AheadInSorted(sorted: seq<Candidate>, k: nat)
    requires k < |sorted| && DistinctBy(IdOf, sorted) && forall x | x in sorted :: x.lane == Identity
    requires forall i, j | 0 <= i < j < |sorted| :: FactPrecedes(sorted[i], sorted[j])
    ensures Sum(Map(AheadOf(sorted[k]), sorted)) == TotalCost(sorted[..k])
  {
    hide FactPrecedes, Sum, TotalCost;
    var c, front, back := sorted[k], sorted[..k], sorted[k..];
    assert sorted == front + back;
    forall x | x in front
      ensures x.lane == Identity && x.id != c.id && FactPrecedes(x, c)
    {
      var i :| 0 <= i < k && sorted[i] == x;
      assert IdOf(sorted[i]) != IdOf(sorted[k]);
    }
    forall x | x in back
      ensures x.lane != Identity || x.id == c.id || !FactPrecedes(x, c)
    {
      var i :| 0 <= i < |back| && back[i] == x;
      if i > 0 {
        assert FactPrecedes(c, sorted[k + i]) && IdOf(sorted[k]) != IdOf(sorted[k + i]);
        FactPrecedesBothWays(c, x);
      }
    }
    AheadInPrefix(c, front);
    NoneAhead(c, back);
    SumMapAppend(AheadOf(c), front, back);
  }

  lemma FactPrecedesBothWays(a: Candidate, b: Candidate)
    ensures FactPrecedes(a, b) && FactPrecedes(b, a) ==> a.id == b.id
  {
    PrecedesBothWays(Scored(a, 0.0), Scored(b, 0.0));
  }

  /** An identity fact is injected exactly when all identity facts that come before it, those with a higher confidence
      or the same confidence and a smaller id, fit the budget together with it. */
  lemma IdentityInjectedIffFits(score: Candidate -> real, candidates: seq<Candidate>, budget: int, minScore: real,
                                c: Candidate)
    requires DistinctBy(IdOf, candidates) && c in candidates && c.lane == Identity
    ensures c in AssembleBy(score, candidates, budget, minScore).identity <==>
              Sum(Map(AheadOf(c), candidates)) + |c.content| + 3 <= budget
  {
    var own, sorted := Filter(IsIdentity, candidates), SortedIdentity(candidates);
    var chosen := AssembleBy(score, candidates, budget, minScore).identity;
    SortPermutes(IdentityLe, own);
    SortedIdentityInOrder(candidates);
    IdentityIsLongestPrefix(score, candidates, budget, minScore);
    DistinctByFilter(IdOf, IsIdentity, candidates);
    DistinctByPermutation(IdOf, own, sorted);
    SortedIdentityHolds(candidates, c);
    hide *;
    var k :| 0 <= k < |sorted| && sorted[k] == c;
    SortedIsIdentity(candidates);
    AheadInSorted(sorted, k);
    SumMapSameElements(AheadOf(c), own, sorted);
    SumMapFilter(AheadOf(c), candidates, c);
    PrefixHolds(budget, sorted, chosen, k);
  }

  lemma SortedIdentityHolds(candidates: seq<Candidate>, c: Candidate)
    requires c in candidates && c.lane == Identity
    ensures c in SortedIdentity(candidates)
  {
    FilterMember(IsIdentity, candidates, c);
    SortMember(IdentityLe, Filter(IsIdentity, candidates), c);
  }

  lemma SortedIsIdentity(candidates: seq<Candidate>)
    ensures forall x | x in SortedIdentity(candidates) :: x.lane == Identity
  {
    forall x | x in SortedIdentity(candidates)
      ensures x.lane == Identity
    {
      SortMember(IdentityLe, Filter(IsIdentity, candidates), x);
      FilterMember(IsIdentity, candidates, x);
    }
  }

  lemma {:induction false} SumMapFilter(w: Candidate -> int, s: seq<Candidate>, c: Candidate)
    requires w == AheadOf(c)
    ensures Sum(Map(w, Filter(IsIdentity, s))) == Sum(Map(w, s))
  {
    if s == [] {
    } else {
      SumMapFilter(w, s[1..], c);
      assert s == [s[0]] + s[1..];
    }
  }

  lemma PrefixHolds(budget: int, sorted: seq<Candidate>, chosen: seq<Candidate>, k: nat)
    requires k < |sorted| && DistinctBy(IdOf, sorted) && chosen <= sorted
    requires chosen == [] || TotalCost(chosen) <= budget
    requires forall n | |chosen| < n <= |sorted| :: TotalCost(sorted[..n]) > budget
    ensures sorted[k] in chosen <==> TotalCost(sorted[..k]) + |sorted[k].content| + 3 <= budget
  {
    hide TotalCost;
    assert sorted[..k + 1] == sorted[..k] + [sorted[k]];
    TotalCostSnoc(sorted[..k], sorted[k]);
    if k < |chosen| {
      assert chosen[k] == sorted[k];
      TotalCostMonotone(sorted, k + 1, |chosen|);
      assert sorted[..|chosen|] == chosen;
    } else {
      forall x | x in chosen
        ensures x != sorted[k]
      {
        var i :| 0 <= i < |chosen| && chosen[i] == x;
        assert IdOf(sorted[i]) != IdOf(sorted[k]);
      }
    }
  }

  // ---------- what makes a fact score higher ----------

  function Overlap(query: string, text: string): nat {
    |TextNorm.QueryTerms(query) * TextNorm.QueryTerms(text)|
  }

  predicate SubjectHit(query: string, c: Candidate) {
    TextNorm.QueryTerms(query) * TextNorm.QueryTerms(c.subject) != {}
  }

  /** Confidences lie between 0 and 1. */
  predicate Proper(c: Candidate) {
    0.0 <= c.confidence <= 1.0
  }

  /** Which of two relevant facts scores higher is decided by the number of query terms in the content; only if they
      tie, by a query term in the subject; only if they tie again, by the confidence. */
  lemma ScoreIsLexicographic(query: string, a: Candidate, b: Candidate)
    requires Proper(a) && Proper(b)
    requires Overlap(query, a.content) > 0 || SubjectHit(query, a)
    requires Overlap(query, b.content) > 0 || SubjectHit(query, b)
    ensures ScorerFor(query)(a) > ScorerFor(query)(b) <==>
              || Overlap(query, a.content) > Overlap(query, b.content)
              || (Overlap(query, a.content) == Overlap(query, b.content)
                  && ((SubjectHit(query, a) && !SubjectHit(query, b))
                      || (SubjectHit(query, a) == SubjectHit(query, b) && a.confidence > b.confidence)))
  {
    hide TextNorm.QueryTerms;
    var q := TextNorm.QueryTerms(query);
    QueryNotEmpty(query, a);
    var x, y, n := Overlap(query, a.content), Overlap(query, b.content), |q|;
    if x > y {
      QuotientMonotone(y, x, n);
    } else if y > x {
      QuotientMonotone(x, y, n);
    }
  }

  lemma QueryNotEmpty(query: string, c: Candidate)
    requires Overlap(query, c.content) > 0 || SubjectHit(query, c)
    ensures TextNorm.QueryTerms(query) != {} && |TextNorm.QueryTerms(query)| > 0
  {
    hide TextNorm.QueryTerms;
    if Overlap(query, c.content) > 0 {
      var t :| t in TextNorm.QueryTerms(query) * TextNorm.QueryTerms(c.content);
    } else {
      var t :| t in TextNorm.QueryTerms(query) * TextNorm.QueryTerms(c.subject);
    }
  }

  lemma QuotientMonotone(a: nat, b: nat, n: nat)
    requires a <= b && n > 0
    ensures a as real / n as real <= b as real / n as real
  {
  }
}
