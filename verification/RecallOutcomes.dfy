/** Which rules and which facts one recall injects, in terms of the rules' and the claims' own fields. */
module RecallOutcomes {
  import opened Prelude
  import opened Text
  import opened Rules
  import opened RuleService
  import opened Recall
  import Claims
  import InjectionOrder
  import Lanes
  import Retrieval
  import TextNorm

  // ---------- rules ----------

  /** The rule is active, not expired, and a term of one of its keywords is a term of the query. */
  ghost predicate Fires(n: Normaliser, query: string, now: int, r: Rule) {
    && r.status == Active && (r.expiresAt.Some? ==> now < r.expiresAt.value)
    && exists k, t :: k in r.keywords && t in n.terms(k) && t in n.terms(query)
  }

  lemma FiresIff(n: Normaliser, query: string, now: int, r: Rule)
    ensures Fires(n, query, now, r) <==> Shown(n, query, now)(r)
  {
    if k, t :| k in r.keywords && t in n.terms(k) && t in n.terms(query) {
      assert t in TriggerTerms(n, r.keywords) * n.terms(query);
    }
    if t :| t in TriggerTerms(n, r.keywords) * n.terms(query) {
      var k :| k in r.keywords && t in n.terms(k);
    }
  }

  /** The lines are, in order, those of the rules that fire: the sanitized text, marked as new for three days from the
      rule's activation. */
  ghost predicate Lines(n: Normaliser, query: string, now: int, rules: seq<Rule>, rendered: seq<string>,
                        picks: seq<nat>)
  {
    && (forall k, l | 0 <= k < l < |picks| :: picks[k] < picks[l])
    && (forall i: nat :: i in picks <==> i < |rules| && Fires(n, query, now, rules[i]))
    && |rendered| == |picks|
    && forall k | 0 <= k < |picks| :: picks[k] < |rules| && IsLine(now, rules[picks[k]], rendered[k])
  }

  predicate IsLine(now: int, r: Rule, line: string) {
    && (r.activatedAt.Some? && now <= r.activatedAt.value + 259200 ==> line == "[NEW] " + SanitizeWith(r.text, MARKERS))
    && (r.activatedAt == None || now > r.activatedAt.value + 259200 ==> line == SanitizeWith(r.text, MARKERS))
  }

  lemma RenderedIsLine(now: int, r: Rule)
    ensures IsLine(now, r, Render(now)(r))
  {
    hide SanitizeWith;
    assert "" + SanitizeWith(r.text, MARKERS) == SanitizeWith(r.text, MARKERS);
  }

  lemma RulesInjected(n: Normaliser, rules: seq<Rule>, query: string, now: int)
    ensures exists picks :: Lines(n, query, now, rules, Map(Render(now), Filter(Shown(n, query, now), rules)), picks)
  {
    hide Fires, Shown, IsLine, Render, Map, Filter;
    var picks := FilterSelects(Shown(n, query, now), rules);
    forall r
      ensures Fires(n, query, now, r) <==> Shown(n, query, now)(r)
    {
      FiresIff(n, query, now, r);
    }
    forall r
      ensures IsLine(now, r, Render(now)(r))
    {
      RenderedIsLine(now, r);
    }
    assert Lines(n, query, now, rules, Map(Render(now), Filter(Shown(n, query, now), rules)), picks);
  }

  // ---------- sanitized text ----------

  ghost predicate SameWords(a: string, b: string) {
    Runs(NotSpace, a) == Runs(NotSpace, b)
  }

  /** `b` is `a` with a blank in place of each `m`. */
  ghost predicate Blanked(a: string, b: string, m: string) {
    exists parts :: (forall p | p in parts :: !Contains(p, m)) && a == Join(parts, m) && b == Join(parts, " ")
  }

  ghost predicate AllBlanked(a: string, b: string, markers: seq<string>)
    decreases |markers|
  {
    if markers == [] then a == b else exists mid :: Blanked(a, mid, markers[0]) && AllBlanked(mid, b, markers[1..])
  }

  /** Longer text is cut behind 240 characters, whitespace at the cut is dropped, and an ellipsis follows. */
  ghost predicate Shortened(full: string, r: string) {
    && (|full| <= 240 ==> r == full)
    && (|full| > 240 ==> exists n :: CutBehind(full, r, n))
  }

  ghost predicate CutBehind(full: string, r: string, n: int) {
    && 0 <= n <= 240 < |full| && r == full[..n] + "\U{2026}"
    && (forall i | n <= i < 240 :: IsSpace(full[i])) && (n > 0 ==> !IsSpace(full[n - 1]))
  }

  lemma {:induction false} RunsOfJoined(words: seq<string>)
    requires forall w | w in words :: IsRun(NotSpace, w)
    ensures Runs(NotSpace, Join(words, " ")) == words
  {
    if words == [] {
    } else {
      hide Runs, IsRun;
      var rest := Join(words[1..], " ");
      assert words[0] in words && forall w | w in words[1..] :: w in words;
      RunsOfJoined(words[1..]);
      RunsOfRun(NotSpace, words[0]);
      if |words| > 1 {
        RunsSplit(NotSpace, words[0], ' ', rest);
        assert Join(words, " ") == words[0] + [' '] + rest;
      }
      assert words == [words[0]] + words[1..];
    }
  }

  lemma CollapseKeepsWords(s: string)
    ensures SameWords(s, Collapse(s)) && Collapsed(Collapse(s))
  {
    hide Runs, IsRun, Collapsed;
    forall w | w in Runs(NotSpace, s)
      ensures IsRun(NotSpace, w)
    {
      RunsAreRuns(NotSpace, s, w);
    }
    RunsOfJoined(Runs(NotSpace, s));
    CollapseCollapses(s);
  }

  lemma ReplaceBlanks(text: string, m: string)
    requires m != ""
    ensures Blanked(text, Replace(text, m, " "), m)
  {
    hide Contains, Join;
    var parts := SplitOn(text, m);
    JoinSplit(text, m);
    forall p | p in parts
      ensures !Contains(p, m)
    {
      SplitParts(text, m, p);
    }
  }

  lemma {:induction false} ReplaceAllBlanks(text: string, markers: seq<string>)
    requires NonEmpty(markers)
    ensures AllBlanked(text, ReplaceAll(text, markers), markers)
    decreases |markers|
  {
    if markers == [] {
    } else {
      hide Blanked, Replace;
      ReplaceBlanks(text, markers[0]);
      ReplaceAllBlanks(Replace(text, markers[0], " "), markers[1..]);
    }
  }

  lemma TruncateShortens(full: string)
    ensures Shortened(full, Truncate(full))
  {
    if |full| > 240 {
      var n := |TrimEnd(IsSpace, full[..240])|;
      assert CutBehind(full, Truncate(full), n);
    }
  }

  ghost predicate Sanitizes(text: string, once: string, blanked: string, full: string, r: string) {
    && SameWords(text, once) && Collapsed(once)
    && AllBlanked(once, blanked, ["<", ">", "```", "system:", "assistant:", "user:"])
    && SameWords(blanked, full) && Collapsed(full)
    && Shortened(full, r)
  }

  /** What sanitizing does to any text: whitespace is collapsed, each of the six markers in turn becomes a blank,
      whitespace is collapsed again, and the result is shortened. Every other word stays, in order. */
  lemma SanitizedFrom(text: string)
    ensures exists once, blanked, full :: Sanitizes(text, once, blanked, full, SanitizeWith(text, MARKERS))
  {
    hide Collapse, ReplaceAll, Truncate, Shortened, SameWords, AllBlanked, Collapsed;
    var once := Collapse(text);
    var blanked := ReplaceAll(once, MARKERS);
    CollapseKeepsWords(text);
    ReplaceAllBlanks(once, MARKERS);
    CollapseKeepsWords(blanked);
    TruncateShortens(Collapse(blanked));
    assert Sanitizes(text, once, blanked, Collapse(blanked), SanitizeWith(text, MARKERS));
  }

  // ---------- facts ----------

  /** Neither superseded nor retracted, and S0, S1 or S2 unless the provider is local. */
  predicate MayBeOffered(providerIsLocal: bool, c: Claims.Claim) {
    && (c.data.state == Claims.Tentative || c.data.state == Claims.Confirmed)
    && (providerIsLocal || c.data.sensitivity == Claims.S0 || c.data.sensitivity == Claims.S1
        || c.data.sensitivity == Claims.S2)
  }

  function AsCandidate(idText: nat -> string, c: Claims.Claim): Retrieval.Candidate {
    Retrieval.Candidate(idText(c.id), c.data.lane, c.data.subject, c.data.content, c.data.confidence)
  }

  ghost predicate Offers(idText: nat -> string, claims: seq<Claims.Claim>, providerIsLocal: bool,
                         candidates: seq<Retrieval.Candidate>, picks: seq<nat>)
  {
    && (forall k, l | 0 <= k < l < |picks| :: picks[k] < picks[l])
    && (forall i: nat :: i in picks <==> i < |claims| && MayBeOffered(providerIsLocal, claims[i]))
    && |candidates| == |picks|
    && forall k | 0 <= k < |picks| :: picks[k] < |claims| && candidates[k] == AsCandidate(idText, claims[picks[k]])
  }

  /** Offered to the assembly are exactly the claims that may be, in row order, each with its own fields. */
  lemma FactsOffered(idText: nat -> string, claims: seq<Claims.Claim>, providerIsLocal: bool)
    ensures exists picks :: Offers(idText, claims, providerIsLocal, FactCandidates(idText, claims, providerIsLocal),
                                   picks)
  {
    hide MayBeOffered, AsCandidate, Map, Filter;
    var picks := FilterSelects(Offered(providerIsLocal), claims);
    forall c
      ensures Offered(providerIsLocal)(c) <==> MayBeOffered(providerIsLocal, c)
      ensures ToCandidate(idText)(c) == AsCandidate(idText, c)
    {
      OfferedSpelled(idText, providerIsLocal, c);
    }
    hide Offered, ToCandidate;
    assert Offers(idText, claims, providerIsLocal, FactCandidates(idText, claims, providerIsLocal), picks);
  }

  lemma OfferedSpelled(idText: nat -> string, providerIsLocal: bool, c: Claims.Claim)
    ensures Offered(providerIsLocal)(c) <==> MayBeOffered(providerIsLocal, c)
    ensures ToCandidate(idText)(c) == AsCandidate(idText, c)
  {
  }

  lemma OfferedIff(idText: nat -> string, claims: seq<Claims.Claim>, providerIsLocal: bool, c: Claims.Claim)
    requires DistinctBy((x: Claims.Claim) => idText(x.id), claims) && c in claims
    ensures AsCandidate(idText, c) in FactCandidates(idText, claims, providerIsLocal) <==>
              MayBeOffered(providerIsLocal, c)
    ensures DistinctBy(Retrieval.IdOf, FactCandidates(idText, claims, providerIsLocal))
  {
    var own := Filter(Offered(providerIsLocal), claims);
    var candidates := FactCandidates(idText, claims, providerIsLocal);
    FilterMember(Offered(providerIsLocal), claims, c);
    DistinctByFilter((x: Claims.Claim) => idText(x.id), Offered(providerIsLocal), claims);
    if MayBeOffered(providerIsLocal, c) {
      var k :| 0 <= k < |own| && own[k] == c;
      assert candidates[k] == AsCandidate(idText, c);
    }
    if AsCandidate(idText, c) in candidates {
      var k :| 0 <= k < |candidates| && candidates[k] == AsCandidate(idText, c);
      FilterMember(Offered(providerIsLocal), claims, own[k]);
      var i :| 0 <= i < |claims| && claims[i] == own[k];
      var j :| 0 <= j < |claims| && claims[j] == c;
      DistinctSameIndex((x: Claims.Claim) => idText(x.id), claims, i, j);
    }
    forall a, b | 0 <= a < b < |candidates|
      ensures Retrieval.IdOf(candidates[a]) != Retrieval.IdOf(candidates[b])
    {
      assert ((x: Claims.Claim) => idText(x.id))(own[a]) != ((x: Claims.Claim) => idText(x.id))(own[b]);
    }
  }

  ghost predicate SharesTerm(query: string, c: Claims.Claim) {
    exists t :: t in TextNorm.QueryTerms(query)
                && (t in TextNorm.QueryTerms(c.data.content) || t in TextNorm.QueryTerms(c.data.subject))
  }

  /** A claim outside the identity lane is injected for a query exactly when it may be offered, is of the preference,
      evidence or procedural lane, shares a term with the query, and fits its lane's budget beside the injected facts of
      its lane that come before it. */
  lemma ClaimRecalledIff(idText: nat -> string, claims: seq<Claims.Claim>, providerIsLocal: bool, query: string,
                         budget: int, c: Claims.Claim)
    requires DistinctBy((x: Claims.Claim) => idText(x.id), claims) && c in claims
    requires c.data.lane != Lanes.Identity && c.data.confidence >= 0.0
    ensures
      var score := Retrieval.ScorerFor(query);
      var relevant :=
        Retrieval.AssembleBy(score, FactCandidates(idText, claims, providerIsLocal), budget, 0.01).relevant;
      var sc := Retrieval.Scored(AsCandidate(idText, c), score(AsCandidate(idText, c)));
      sc in relevant <==>
        && MayBeOffered(providerIsLocal, c)
        && (c.data.lane == Lanes.Preference || c.data.lane == Lanes.Evidence || c.data.lane == Lanes.Procedural)
        && SharesTerm(query, c)
        && Sum(Map(InjectionOrder.TakenBefore(sc), relevant)) + |c.data.content| + 3 <= budget
  {
    hide Retrieval.AssembleBy, Retrieval.ScorerFor, Sum, InjectionOrder.TakenBefore, TextNorm.QueryTerms;
    hide FactCandidates, MayBeOffered, DistinctBy;
    var score, cand := Retrieval.ScorerFor(query), AsCandidate(idText, c);
    var candidates := FactCandidates(idText, claims, providerIsLocal);
    OfferedIff(idText, claims, providerIsLocal, c);
    Retrieval.NothingElseAppears(score, candidates, budget, 0.01);
    Retrieval.RelevantIffSharedTerm(query, cand);
    if cand in candidates && c.data.lane != Lanes.Authorization && score(cand) >= 0.01 {
      InjectionOrder.InjectedIffFits(score, candidates, budget, 0.01, cand);
    }
  }
}
