/** Relevance scoring and budgeted assembly of the facts injected into a prompt. */
module Retrieval {
  import opened Prelude
  import opened Lanes
  import opened Sorting
  import TextNorm

  datatype Candidate = Candidate(id: string, lane: Lane, subject: string, content: string, confidence: real)

  datatype Scored = Scored(candidate: Candidate, score: real)

  datatype Injection = Injection(identity: seq<Candidate>, relevant: seq<Scored>)

  const DEFAULT_LANE_BUDGET: int := 1200
  const DEFAULT_MIN_SCORE: real := 0.01

  function Score(qTerms: set<string>, c: Candidate): real {
    var overlap := |qTerms * TextNorm.QueryTerms(c.content)|;
    var subjectHit := qTerms * TextNorm.QueryTerms(c.subject) != {};
    if qTerms == {} then 0.0
    else if overlap == 0 && !subjectHit then 0.0
    else
      overlap as real + 0.5 * (overlap as real / |qTerms| as real) + 0.25 * c.confidence
      + if subjectHit then 0.5 else 0.0
  }

  function ScorerFor(query: string): Candidate -> real {
    var qTerms := TextNorm.QueryTerms(query);
    (c: Candidate) => Score(qTerms, c)
  }

  // ---------- sort orders ----------

  predicate IdentityLe(a: Candidate, b: Candidate) {
    a.confidence > b.confidence || (a.confidence == b.confidence && StringLe(a.id, b.id))
  }

  predicate RankLe(a: Scored, b: Scored) {
    a.score > b.score || (a.score == b.score && IdentityLe(a.candidate, b.candidate))
  }

  // ---------- selection ----------

  predicate IsIdentity(c: Candidate) {
    c.lane == Identity
  }

  predicate IsInjectable(c: Candidate) {
    c.lane != Identity && PolicyFor(c.lane).injectable
  }

  function OfLane(lane: Lane): Candidate -> bool {
    (c: Candidate) => c.lane == lane
  }

  function InLane(lane: Lane): Scored -> bool {
    (sc: Scored) => sc.candidate.lane == lane
  }

  function AtLeast(minScore: real): Scored -> bool {
    (sc: Scored) => sc.score >= minScore
  }

  function WithScore(score: Candidate -> real): Candidate -> Scored {
    (c: Candidate) => Scored(c, score(c))
  }

  function Rank(score: Candidate -> real, candidates: seq<Candidate>): seq<Scored> {
    Sort(RankLe, Map(WithScore(score), candidates))
  }

  function Cost(c: Candidate): int {
    |c.content| + 3
  }

  function TotalCost(cs: seq<Candidate>): int {
    if cs == [] then 0 else Cost(cs[0]) + TotalCost(cs[1..])
  }

  function CandidateOf(sc: Scored): Candidate {
    sc.candidate
  }

  /** Characters one lane takes of a selection. */
  function LaneCost(lane: Lane, picked: seq<Scored>): int {
    TotalCost(Map(CandidateOf, Filter(InLane(lane), picked)))
  }

  /** The longest prefix that fits the budget. */
  function FittingPrefix(budget: int, used: int, cs: seq<Candidate>): seq<Candidate>
    decreases |cs|
  {
    if cs == [] || used + Cost(cs[0]) > budget then []
    else [cs[0]] + FittingPrefix(budget, used + Cost(cs[0]), cs[1..])
  }

  /** Take each candidate, best first, that still fits the budget of its own lane. */
  function Greedy(budget: int, picked: seq<Scored>, ranked: seq<Scored>): seq<Scored>
    decreases |ranked|
  {
    if ranked == [] then picked
    else
      var c := ranked[0].candidate;
      if LaneCost(c.lane, picked) + Cost(c) > budget then Greedy(budget, picked, ranked[1..])
      else Greedy(budget, picked + [ranked[0]], ranked[1..])
  }

  function RankedRelevant(score: Candidate -> real, minScore: real, candidates: seq<Candidate>): seq<Scored> {
    Filter(AtLeast(minScore), Rank(score, Filter(IsInjectable, candidates)))
  }

  function SortedIdentity(candidates: seq<Candidate>): seq<Candidate> {
    Sort(IdentityLe, Filter(IsIdentity, candidates))
  }

  function AssembleBy(score: Candidate -> real, candidates: seq<Candidate>, budget: int, minScore: real): Injection {
    Injection(
      FittingPrefix(budget, 0, SortedIdentity(candidates)),
      Greedy(budget, [], RankedRelevant(score, minScore, candidates)))
  }

  method Assemble(query: string, candidates: seq<Candidate>,
                  budget: int := DEFAULT_LANE_BUDGET, minScore: real := DEFAULT_MIN_SCORE)
    returns (result: Injection)
    ensures result == AssembleBy(ScorerFor(query), candidates, budget, minScore)
  {
    var identity := TakeIdentity(SortedIdentity(candidates), budget);
    var relevant := TakeRelevant(RankedRelevant(ScorerFor(query), minScore, candidates), budget);
    result := Injection(identity, relevant);
  }

  /** The identity loop: stop at the first fact that does not fit. */
  method TakeIdentity(identity: seq<Candidate>, budget: int) returns (chosen: seq<Candidate>)
    ensures chosen == FittingPrefix(budget, 0, identity)
  {
    chosen := [];
    var used := 0;
    var i := 0;
    while i < |identity|
      invariant 0 <= i <= |identity|
      invariant FittingPrefix(budget, 0, identity) == chosen + FittingPrefix(budget, used, identity[i..])
    {
      var cost := Cost(identity[i]);
      if used + cost > budget {
        break;
      }
      assert identity[i..][1..] == identity[i + 1..];
      AppendAssoc(chosen, [identity[i]], FittingPrefix(budget, used + cost, identity[i + 1..]));
      chosen := chosen + [identity[i]];
      used := used + cost;
      i := i + 1;
    }
  }

  /** The lane-budget loop: skip what does not fit its lane and go on. */
  method TakeRelevant(ranked: seq<Scored>, budget: int) returns (relevant: seq<Scored>)
    ensures relevant == Greedy(budget, [], ranked)
  {
    hide LaneCost;
    relevant := [];
    var budgets: map<Lane, int> := map[];
    NothingSpent();
    for k := 0 to |ranked|
      invariant Greedy(budget, [], ranked) == Greedy(budget, relevant, ranked[k..])
      invariant forall lane: Lane :: Spent(budgets, lane) == LaneCost(lane, relevant)
    {
      var lane := ranked[k].candidate.lane;
      var spent := Spent(budgets, lane);
      var cost := Cost(ranked[k].candidate);
      assert ranked[k..][1..] == ranked[k + 1..];
      if spent + cost > budget {
        continue;
      }
      LaneCostsSnoc(relevant, ranked[k]);
      relevant := relevant + [ranked[k]];
      budgets := budgets[lane := spent + cost];
    }
  }

  /** `budgets.get(lane, 0)` */
  function Spent(budgets: map<Lane, int>, lane: Lane): int {
    if lane in budgets then budgets[lane] else 0
  }

  lemma NothingSpent()
    ensures forall lane: Lane :: LaneCost(lane, []) == 0
  {
  }

  lemma LaneCostsSnoc(picked: seq<Scored>, sc: Scored)
    ensures forall lane: Lane :: LaneCost(lane, picked + [sc])
              == LaneCost(lane, picked) + if sc.candidate.lane == lane then Cost(sc.candidate) else 0
  {
    forall lane: Lane
      ensures LaneCost(lane, picked + [sc])
           == LaneCost(lane, picked) + if sc.candidate.lane == lane then Cost(sc.candidate) else 0
    {
      LaneCostSnoc(lane, picked, sc);
    }
  }

  // ---------- relevance ----------

  /** The default threshold separates exactly the facts that share a term with the query, in their content or in
      their subject, from those that share none. */
  lemma RelevantIffSharedTerm(query: string, c: Candidate)
    requires c.confidence >= 0.0
    ensures ScorerFor(query)(c) >= DEFAULT_MIN_SCORE <==>
            exists t :: t in TextNorm.QueryTerms(query)
                && (t in TextNorm.QueryTerms(c.content) || t in TextNorm.QueryTerms(c.subject))
  {
    hide TextNorm.QueryTerms;
    var q, content, subject := TextNorm.QueryTerms(query), TextNorm.QueryTerms(c.content),
        TextNorm.QueryTerms(c.subject);
    if q != {} {
      assert |q| > 0;
      QuotientNonNegative(|q * content|, |q|);
    }
    if t :| t in q && (t in content || t in subject) {
      assert t in q * content || t in q * subject;
      if t in q * content {
        assert |q * content| > 0;
      }
    }
    if q * content != {} {
      var t :| t in q * content;
    }
  }

  lemma QuotientNonNegative(a: nat, b: nat)
    requires b > 0
    ensures a as real / b as real >= 0.0
  {
  }

  // ---------- the orders are total ----------

  lemma IdentityLeTotal()
    ensures TotalPreorder(IdentityLe)
  {
    forall a: Candidate, b: Candidate
      ensures IdentityLe(a, b) || IdentityLe(b, a)
    {
      StringLeTotal(a.id, b.id);
    }
    forall a: Candidate, b: Candidate, c: Candidate | IdentityLe(a, b) && IdentityLe(b, c)
      ensures IdentityLe(a, c)
    {
      IdentityLeTransitive(a, b, c);
    }
  }

  lemma IdentityLeTransitive(a: Candidate, b: Candidate, c: Candidate)
    requires IdentityLe(a, b) && IdentityLe(b, c)
    ensures IdentityLe(a, c)
  {
    if a.confidence == b.confidence == c.confidence {
      StringLeTransitive(a.id, b.id, c.id);
    }
  }

  lemma RankLeTotal()
    ensures TotalPreorder(RankLe)
  {
    IdentityLeTotal();
    forall a: Scored, b: Scored, c: Scored | RankLe(a, b) && RankLe(b, c)
      ensures RankLe(a, c)
    {
      if a.score == b.score == c.score {
        IdentityLeTransitive(a.candidate, b.candidate, c.candidate);
      }
    }
    forall a: Scored, b: Scored
      ensures RankLe(a, b) || RankLe(b, a)
    {
      StringLeTotal(a.candidate.id, b.candidate.id);
    }
  }

  // ---------- order independence ----------

  function IdOf(c: Candidate): string {
    c.id
  }

  /** The result does not depend on the order in which candidates were loaded. */
  lemma OrderIndependent(score: Candidate -> real, a: seq<Candidate>, b: seq<Candidate>, budget: int, minScore: real)
    requires multiset(a) == multiset(b) && DistinctBy(IdOf, a)
    ensures AssembleBy(score, a, budget, minScore) == AssembleBy(score, b, budget, minScore)
  {
    IdentityOrderIndependent(a, b);
    RankOrderIndependent(score, a, b);
  }

  lemma SameIdSameCandidate(cs: seq<Candidate>, x: Candidate, y: Candidate)
    requires DistinctBy(IdOf, cs) && x in cs && y in cs && IdentityLe(x, y) && IdentityLe(y, x)
    ensures x == y
  {
    StringLeAntisymmetric(x.id, y.id);
    var i :| 0 <= i < |cs| && cs[i] == x;
    var j :| 0 <= j < |cs| && cs[j] == y;
    DistinctSameIndex(IdOf, cs, i, j);
  }

  lemma IdentityOrderIndependent(a: seq<Candidate>, b: seq<Candidate>)
    requires multiset(a) == multiset(b) && DistinctBy(IdOf, a)
    ensures SortedIdentity(a) == SortedIdentity(b)
  {
    var fa, fb := Filter(IsIdentity, a), Filter(IsIdentity, b);
    FilterSameElements(IsIdentity, a, b);
    IdentityLeTotal();
    forall x, y | x in fa && y in fa && IdentityLe(x, y) && IdentityLe(y, x)
      ensures x == y
    {
      FilterMember(IsIdentity, a, x);
      FilterMember(IsIdentity, a, y);
      SameIdSameCandidate(a, x, y);
    }
    SortOrderIndependent(IdentityLe, fa, fb);
  }

  lemma RankOrderIndependent(score: Candidate -> real, a: seq<Candidate>, b: seq<Candidate>)
    requires multiset(a) == multiset(b) && DistinctBy(IdOf, a)
    ensures Rank(score, Filter(IsInjectable, a)) == Rank(score, Filter(IsInjectable, b))
  {
    var fa, fb := Filter(IsInjectable, a), Filter(IsInjectable, b);
    var sa, sb := Map(WithScore(score), fa), Map(WithScore(score), fb);
    FilterSameElements(IsInjectable, a, b);
    MapSameElements(WithScore(score), fa, fb);
    RankLeTotal();
    forall x, y | x in sa && y in sa && RankLe(x, y) && RankLe(y, x)
      ensures x == y
    {
      var i :| 0 <= i < |sa| && sa[i] == x;
      var j :| 0 <= j < |sa| && sa[j] == y;
      FilterMember(IsInjectable, a, fa[i]);
      FilterMember(IsInjectable, a, fa[j]);
      SameIdSameCandidate(a, fa[i], fa[j]);
    }
    SortOrderIndependent(RankLe, sa, sb);
  }

  // ---------- lanes do not interfere ----------

  lemma LaneCostOwn(lane: Lane, picked: seq<Scored>)
    ensures LaneCost(lane, Filter(InLane(lane), picked)) == LaneCost(lane, picked)
  {
  }

  lemma {:induction false} TotalCostSnoc(cs: seq<Candidate>, c: Candidate)
    ensures TotalCost(cs + [c]) == TotalCost(cs) + Cost(c)
  {
    if cs == [] {
      assert [c][1..] == [];
    } else {
      assert (cs + [c])[1..] == cs[1..] + [c];
      TotalCostSnoc(cs[1..], c);
    }
  }

  lemma LaneCostSnoc(lane: Lane, picked: seq<Scored>, sc: Scored)
    ensures LaneCost(lane, picked + [sc]) == LaneCost(lane, picked) + if sc.candidate.lane == lane
        then Cost(sc.candidate) else 0
  {
    FilterAppend(InLane(lane), picked, [sc]);
    var own := Filter(InLane(lane), picked);
    if sc.candidate.lane == lane {
      assert Filter(InLane(lane), [sc]) == [sc];
      assert Map(CandidateOf, own + [sc]) == Map(CandidateOf, own) + [sc.candidate];
      TotalCostSnoc(Map(CandidateOf, own), sc.candidate);
    } else {
      assert Filter(InLane(lane), [sc]) == [];
      assert own + [] == own;
    }
  }

  /** A greedy run over all lanes, seen from one lane, is a greedy run on that lane alone. */
  lemma {:induction false} GreedyOneLane(budget: int, lane: Lane, picked: seq<Scored>, ranked: seq<Scored>)
    ensures Filter(InLane(lane), Greedy(budget, picked, ranked))
         == Greedy(budget, Filter(InLane(lane), picked), Filter(InLane(lane), ranked))
    decreases |ranked|
  {
    if ranked == [] {
    } else {
      var sc, rest := ranked[0], ranked[1..];
      GreedyOneLane(budget, lane, picked, rest);
      GreedyOneLane(budget, lane, picked + [sc], rest);
      FilterAppend(InLane(lane), picked, [sc]);
      LaneCostOwn(lane, picked);
      var own := Filter(InLane(lane), rest);
      if sc.candidate.lane == lane {
        assert Filter(InLane(lane), [sc]) == [sc];
        assert Filter(InLane(lane), ranked) == [sc] + own;
        assert ([sc] + own)[0] == sc && ([sc] + own)[1..] == own;
      } else {
        assert Filter(InLane(lane), [sc]) == [];
        assert Filter(InLane(lane), picked) + [] == Filter(InLane(lane), picked);
      }
    }
  }

  lemma RankedOneLane(score: Candidate -> real, minScore: real, candidates: seq<Candidate>, lane: Lane)
    ensures Filter(InLane(lane), RankedRelevant(score, minScore, candidates))
         == RankedRelevant(score, minScore, Filter(OfLane(lane), candidates))
  {
    var injectable := Filter(IsInjectable, candidates);
    FilterCommutes(InLane(lane), AtLeast(minScore), Rank(score, injectable));
    RankLeTotal();
    FilterSort(InLane(lane), RankLe, Map(WithScore(score), injectable));
    FilterMap(InLane(lane), OfLane(lane), WithScore(score), injectable);
    FilterCommutes(OfLane(lane), IsInjectable, candidates);
  }

  /** What one lane contributes is what it would contribute if no other lane existed. */
  lemma LanesDoNotInterfere(score: Candidate -> real, candidates: seq<Candidate>, budget: int, minScore: real,
                            lane: Lane)
    ensures Filter(InLane(lane), AssembleBy(score, candidates, budget, minScore).relevant)
         == AssembleBy(score, Filter(OfLane(lane), candidates), budget, minScore).relevant
  {
    GreedyOneLane(budget, lane, [], RankedRelevant(score, minScore, candidates));
    RankedOneLane(score, minScore, candidates, lane);
  }

  // ---------- budgets ----------

  lemma {:induction false} GreedyWithinBudget(budget: int, lane: Lane, picked: seq<Scored>, ranked: seq<Scored>)
    requires LaneCost(lane, picked) <= budget || LaneCost(lane, picked) == 0
    ensures var all := Greedy(budget, picked, ranked);
            LaneCost(lane, all) <= budget || LaneCost(lane, all) == 0
    decreases |ranked|
  {
    if ranked == [] {
    } else {
      var c := ranked[0].candidate;
      LaneCostSnoc(lane, picked, ranked[0]);
      if LaneCost(c.lane, picked) + Cost(c) > budget {
        GreedyWithinBudget(budget, lane, picked, ranked[1..]);
      } else {
        GreedyWithinBudget(budget, lane, picked + [ranked[0]], ranked[1..]);
      }
    }
  }

  /** Every lane stays within its character budget; a lane with no budget contributes nothing. */
  lemma LaneWithinBudget(score: Candidate -> real, candidates: seq<Candidate>, budget: int, minScore: real, lane: Lane)
    ensures var cost := LaneCost(lane, AssembleBy(score, candidates, budget, minScore).relevant);
            cost <= budget || cost == 0
  {
    GreedyWithinBudget(budget, lane, [], RankedRelevant(score, minScore, candidates));
  }

  lemma {:induction false} GreedyAppend(budget: int, picked: seq<Scored>, a: seq<Scored>, b: seq<Scored>)
    ensures Greedy(budget, picked, a + b) == Greedy(budget, Greedy(budget, picked, a), b)
    decreases |a|
  {
    if a == [] {
      assert a + b == b;
    } else {
      assert (a + b)[0] == a[0] && (a + b)[1..] == a[1..] + b;
      GreedyAppend(budget, picked, a[1..], b);
      GreedyAppend(budget, picked + [a[0]], a[1..], b);
    }
  }

  lemma {:induction false} GreedyKeeps(budget: int, picked: seq<Scored>, ranked: seq<Scored>)
    ensures picked <= Greedy(budget, picked, ranked)
    decreases |ranked|
  {
    if ranked == [] {
    } else {
      GreedyKeeps(budget, picked, ranked[1..]);
      GreedyKeeps(budget, picked + [ranked[0]], ranked[1..]);
    }
  }

  function ScoredId(sc: Scored): string {
    sc.candidate.id
  }

  lemma RankedIsDistinct(score: Candidate -> real, candidates: seq<Candidate>, minScore: real)
    requires DistinctBy(IdOf, candidates)
    ensures DistinctBy(ScoredId, RankedRelevant(score, minScore, candidates))
  {
    var injectable := Filter(IsInjectable, candidates);
    var scored := Map(WithScore(score), injectable);
    DistinctByFilter(IdOf, IsInjectable, candidates);
    assert DistinctBy(ScoredId, scored) by {
      forall i, j | 0 <= i < j < |scored|
        ensures ScoredId(scored[i]) != ScoredId(scored[j])
      {
        assert IdOf(injectable[i]) != IdOf(injectable[j]);
      }
    }
    hide DistinctBy;
    SortPermutes(RankLe, scored);
    DistinctByPermutation(ScoredId, scored, Sort(RankLe, scored));
    DistinctByFilter(ScoredId, AtLeast(minScore), Sort(RankLe, scored));
  }

  /** A candidate is passed over exactly when the better-ranked picks of its own lane leave no room for it; with
      distinct ids it then appears nowhere in the result, and otherwise right behind those picks. */
  lemma PickedIffRoom(score: Candidate -> real, candidates: seq<Candidate>, budget: int, minScore: real, k: nat)
    requires k < |RankedRelevant(score, minScore, candidates)|
    ensures
      var ranked := RankedRelevant(score, minScore, candidates);
      var relevant := AssembleBy(score, candidates, budget, minScore).relevant;
      var better := Greedy(budget, [], ranked[..k]);
      var room := LaneCost(ranked[k].candidate.lane, better) + Cost(ranked[k].candidate) <= budget;
      && better + (if room then [ranked[k]] else []) <= relevant
      && (!room ==> relevant == Greedy(budget, better, ranked[k + 1..]))
      && (DistinctBy(IdOf, candidates) ==> (ranked[k] in relevant <==> room))
  {
    var ranked := RankedRelevant(score, minScore, candidates);
    GreedySkipsOrTakes(budget, ranked, k);
    hide Greedy, RankedRelevant, LaneCost, DistinctBy;
    if DistinctBy(IdOf, candidates) {
      RankedIsDistinct(score, candidates, minScore);
      SkippedIsAbsent(budget, ranked, k);
    }
  }

  lemma GreedySkipsOrTakes(budget: int, ranked: seq<Scored>, k: nat)
    requires k < |ranked|
    ensures
      var better, all := Greedy(budget, [], ranked[..k]), Greedy(budget, [], ranked);
      var room := LaneCost(ranked[k].candidate.lane, better) + Cost(ranked[k].candidate) <= budget;
      && better + (if room then [ranked[k]] else []) <= all
      && (room ==> ranked[k] in all)
      && (!room ==> all == Greedy(budget, better, ranked[k + 1..]))
  {
    var better := Greedy(budget, [], ranked[..k]);
    assert ranked == ranked[..k] + ranked[k..];
    assert ranked[k..][1..] == ranked[k + 1..];
    GreedyAppend(budget, [], ranked[..k], ranked[k..]);
    GreedyKeeps(budget, better, ranked[k + 1..]);
    GreedyKeeps(budget, better + [ranked[k]], ranked[k + 1..]);
    var taken := Greedy(budget, better + [ranked[k]], ranked[k + 1..]);
    assert taken[|better|] == (better + [ranked[k]])[|better|] == ranked[k];
  }

  lemma SkippedIsAbsent(budget: int, ranked: seq<Scored>, k: nat)
    requires k < |ranked| && DistinctBy(ScoredId, ranked)
    ensures ranked[k] !in Greedy(budget, Greedy(budget, [], ranked[..k]), ranked[k + 1..])
  {
    hide Greedy;
    var better := Greedy(budget, [], ranked[..k]);
    var all := Greedy(budget, better, ranked[k + 1..]);
    forall sc | sc in all
      ensures sc != ranked[k]
    {
      GreedyMember(budget, better, ranked[k + 1..], sc);
      if sc in better {
        GreedyMember(budget, [], ranked[..k], sc);
        var i :| 0 <= i < k && ranked[i] == sc;
        assert ScoredId(ranked[i]) != ScoredId(ranked[k]);
      } else {
        var i :| 0 <= i < |ranked[k + 1..]| && ranked[k + 1..][i] == sc;
        assert ScoredId(ranked[k]) != ScoredId(ranked[k + 1 + i]);
      }
    }
  }

  // ---------- the identity floor ----------

  lemma {:induction false} TotalCostMonotone(cs: seq<Candidate>, i: nat, j: nat)
    requires i <= j <= |cs|
    ensures TotalCost(cs[..i]) <= TotalCost(cs[..j])
    decreases j - i
  {
    if i == j {
    } else {
      assert cs[..j] == cs[..j - 1] + [cs[j - 1]];
      TotalCostSnoc(cs[..j - 1], cs[j - 1]);
      TotalCostMonotone(cs, i, j - 1);
    }
  }

  lemma {:induction false} FittingPrefixIs(budget: int, used: int, cs: seq<Candidate>)
    ensures var r := FittingPrefix(budget, used, cs);
            && r <= cs
            && (r == [] || used + TotalCost(r) <= budget)
            && (|r| < |cs| ==> used + TotalCost(cs[..|r| + 1]) > budget)
    decreases |cs|
  {
    if cs != [] && used + Cost(cs[0]) <= budget {
      var r := FittingPrefix(budget, used + Cost(cs[0]), cs[1..]);
      FittingPrefixIs(budget, used + Cost(cs[0]), cs[1..]);
      assert FittingPrefix(budget, used, cs)[1..] == r;
      if |r| + 1 < |cs| {
        assert cs[..|r| + 2][1..] == cs[1..][..|r| + 1];
      }
    } else if cs != [] {
      assert cs[..1][1..] == [];
    }
  }

  /** The identity section is the longest prefix of the identity facts, most confident first, that fits. */
  lemma IdentityIsLongestPrefix(score: Candidate -> real, candidates: seq<Candidate>, budget: int, minScore: real)
    ensures
      var sorted := SortedIdentity(candidates);
      var chosen := AssembleBy(score, candidates, budget, minScore).identity;
      && Sorted(IdentityLe, sorted) && multiset(sorted) == multiset(Filter(IsIdentity, candidates))
      && chosen <= sorted
      && (chosen == [] || TotalCost(chosen) <= budget)
      && forall n | |chosen| < n <= |sorted| :: TotalCost(sorted[..n]) > budget
  {
    hide IdentityLe, FittingPrefix, TotalCost, Sort, Filter, Sorted, RankedRelevant, Greedy;
    var sorted := SortedIdentity(candidates);
    IdentityLeTotal();
    SortSorted(IdentityLe, Filter(IsIdentity, candidates));
    SortPermutes(IdentityLe, Filter(IsIdentity, candidates));
    FittingPrefixIs(budget, 0, sorted);
    var r := FittingPrefix(budget, 0, sorted);
    forall n | |r| < n <= |sorted|
      ensures TotalCost(sorted[..n]) > budget
    {
      TotalCostMonotone(sorted, |r| + 1, n);
    }
  }

  // ---------- what can appear ----------

  lemma {:induction false} GreedyMember(budget: int, picked: seq<Scored>, ranked: seq<Scored>, sc: Scored)
    requires sc in Greedy(budget, picked, ranked)
    ensures sc in picked || sc in ranked
    decreases |ranked|
  {
    if ranked == [] {
    } else {
      var c := ranked[0].candidate;
      if LaneCost(c.lane, picked) + Cost(c) > budget {
        GreedyMember(budget, picked, ranked[1..], sc);
      } else {
        GreedyMember(budget, picked + [ranked[0]], ranked[1..], sc);
      }
    }
  }

  lemma IdentityMember(candidates: seq<Candidate>, budget: int, c: Candidate)
    requires c in FittingPrefix(budget, 0, SortedIdentity(candidates))
    ensures c in candidates && c.lane == Identity
  {
    FittingPrefixIs(budget, 0, SortedIdentity(candidates));
    assert c in SortedIdentity(candidates);
    SortMember(IdentityLe, Filter(IsIdentity, candidates), c);
    FilterMember(IsIdentity, candidates, c);
  }

  lemma RelevantMember(score: Candidate -> real, candidates: seq<Candidate>, minScore: real, sc: Scored)
    requires sc in RankedRelevant(score, minScore, candidates)
    ensures sc.candidate in candidates && sc.score == score(sc.candidate) >= minScore
    ensures sc.candidate.lane != Identity && sc.candidate.lane != Authorization
  {
    var injectable := Filter(IsInjectable, candidates);
    var scored := Map(WithScore(score), injectable);
    FilterMember(AtLeast(minScore), Rank(score, injectable), sc);
    SortMember(RankLe, scored, sc);
    var i :| 0 <= i < |scored| && scored[i] == sc;
    FilterMember(IsInjectable, candidates, injectable[i]);
  }

  /** Only given candidates appear, identity only in its own section, and authorization never. */
  lemma NothingElseAppears(score: Candidate -> real, candidates: seq<Candidate>, budget: int, minScore: real)
    ensures
      var r := AssembleBy(score, candidates, budget, minScore);
      && (forall c | c in r.identity :: c in candidates && c.lane == Identity)
      && (forall sc | sc in r.relevant ::
            && sc.candidate in candidates && sc.score == score(sc.candidate) >= minScore
            && sc.candidate.lane != Identity && sc.candidate.lane != Authorization)
  {
    hide RankedRelevant, SortedIdentity, FittingPrefix, Greedy;
    var r := AssembleBy(score, candidates, budget, minScore);
    forall c | c in r.identity
      ensures c in candidates && c.lane == Identity
    {
      IdentityMember(candidates, budget, c);
    }
    forall sc | sc in r.relevant
      ensures sc.candidate in candidates && sc.score == score(sc.candidate) >= minScore
      ensures sc.candidate.lane != Identity && sc.candidate.lane != Authorization
    {
      GreedyMember(budget, [], RankedRelevant(score, minScore, candidates), sc);
      RelevantMember(score, candidates, minScore, sc);
    }
  }
}
