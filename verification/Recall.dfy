/** Memory recall: neutralising rule text, the rules a query triggers, and the facts offered to assembly. */
module Recall {
  import opened Prelude
  import opened Text
  import opened Rules
  import opened RuleService
  import opened RuleRuns
  import Claims
  import Lanes
  import Retrieval

  const MAX_RULE_TEXT: nat := 240
  const NEW_RULE_WINDOW: int := 3 * 24 * 60 * 60
  const ELLIPSIS: char := '\U{2026}'
  const MARKERS: seq<string> := ["<", ">", "```", "system:", "assistant:", "user:"]

  // ---------- sanitizing ----------

  /** `" ".join(text.split())` */
  function Collapse(text: string): string {
    Join(Runs(NotSpace, text), " ")
  }

  predicate NonEmpty(markers: seq<string>) {
    forall i | 0 <= i < |markers| :: markers[i] != ""
  }

  function ReplaceAll(text: string, markers: seq<string>): string
    requires NonEmpty(markers)
    decreases |markers|
  {
    if markers == [] then text else ReplaceAll(Replace(text, markers[0], " "), markers[1..])
  }

  function Truncate(text: string): string {
    if |text| > MAX_RULE_TEXT then TrimEnd(IsSpace, text[..MAX_RULE_TEXT]) + [ELLIPSIS] else text
  }

  function SanitizeWith(text: string, markers: seq<string>): string
    requires NonEmpty(markers)
  {
    Truncate(Collapse(ReplaceAll(Collapse(text), markers)))
  }

  method Sanitize(text: string) returns (flattened: string)
    ensures flattened == SanitizeWith(text, MARKERS)
  {
    hide Collapse, Replace, Truncate;
    flattened := Collapse(text);
    for i := 0 to |MARKERS|
      invariant ReplaceAll(flattened, MARKERS[i..]) == ReplaceAll(Collapse(text), MARKERS)
    {
      assert MARKERS[i..][1..] == MARKERS[i + 1..];
      flattened := Replace(flattened, MARKERS[i], " ");
    }
    flattened := Truncate(Collapse(flattened));
  }

  /** A marker that neither whitespace nor the ellipsis can be part of. */
  ghost predicate PlainMarker(m: string) {
    IsRun(NotSpace, m) && ELLIPSIS !in m
  }

  /** No whitespace but single blanks, none at either end. */
  ghost predicate Collapsed(s: string) {
    forall i | 0 <= i < |s| && IsSpace(s[i]) :: s[i] == ' ' && 0 < i < |s| - 1 && !IsSpace(s[i + 1])
  }

  lemma MarkersArePlain()
    ensures forall m | m in MARKERS :: PlainMarker(m)
  {
  }

  lemma BlankNotIn(m: string)
    requires IsRun(NotSpace, m)
    ensures ' ' !in m
  {
  }

  /** Collapsing whitespace brings no marker into being. */
  lemma CollapseCreatesNothing(s: string, m: string)
    requires IsRun(NotSpace, m) && Contains(Collapse(s), m)
    ensures Contains(s, m)
  {
    hide Contains;
    var words := Runs(NotSpace, s);
    BlankNotIn(m);
    ContainsInJoin(words, ' ', m);
    var k :| 0 <= k < |words| && Contains(words[k], m);
    RunsAreRuns(NotSpace, s, words[k]);
    ContainsTransitive(s, words[k], m);
  }

  /** Replacing one marker by a blank neither creates another marker nor leaves the replaced one behind. */
  lemma ReplaceCreatesNothing(s: string, marker: string, m: string)
    requires marker != "" && IsRun(NotSpace, m) && Contains(Replace(s, marker, " "), m)
    ensures Contains(s, m) && m != marker
  {
    hide Contains;
    var parts := SplitOn(s, marker);
    BlankNotIn(m);
    ContainsInJoin(parts, ' ', m);
    var k :| 0 <= k < |parts| && Contains(parts[k], m);
    SplitParts(s, marker, parts[k]);
    ContainsTransitive(s, parts[k], m);
  }

  lemma {:induction false} ReplaceAllRemoves(s: string, markers: seq<string>, m: string)
    requires NonEmpty(markers) && forall i | 0 <= i < |markers| :: PlainMarker(markers[i])
    requires IsRun(NotSpace, m) && Contains(ReplaceAll(s, markers), m)
    ensures Contains(s, m) && m !in markers
    decreases |markers|
  {
    hide Contains, Replace;
    if markers == [] {
    } else {
      assert markers == [markers[0]] + markers[1..];
      var s1 := Replace(s, markers[0], " ");
      ReplaceAllRemoves(s1, markers[1..], m);
      ReplaceCreatesNothing(s, markers[0], m);
    }
  }

  lemma TruncateCreatesNothing(s: string, m: string)
    requires PlainMarker(m) && Contains(Truncate(s), m)
    ensures Contains(s, m)
  {
    if |s| > MAX_RULE_TEXT {
      var head := TrimEnd(IsSpace, s[..MAX_RULE_TEXT]);
      assert head == s[..|head|];
      assert Truncate(s) == head + [ELLIPSIS] + "";
      ContainsAcross(head, ELLIPSIS, "", m);
      SliceWithin(s, 0, |head|);
      assert s[0..|head|] == head;
      ContainsTransitive(s, head, m);
    }
  }

  lemma {:induction false} JoinCollapsed(words: seq<string>)
    requires forall w | w in words :: IsRun(NotSpace, w)
    ensures Collapsed(Join(words, " "))
    ensures words != [] ==> Join(words, " ") != "" && !IsSpace(Join(words, " ")[0])
  {
    if words == [] {
    } else {
      assert words[0] in words && words[0][0] in words[0];
      assert forall i | 0 <= i < |words[0]| :: words[0][i] in words[0];
      if |words| > 1 {
        JoinCollapsed(words[1..]);
        var rest := Join(words[1..], " ");
        assert Join(words, " ") == words[0] + " " + rest;
      }
    }
  }

  lemma CollapseCollapses(s: string)
    ensures Collapsed(Collapse(s))
  {
    forall w | w in Runs(NotSpace, s)
      ensures IsRun(NotSpace, w)
    {
      RunsAreRuns(NotSpace, s, w);
    }
    JoinCollapsed(Runs(NotSpace, s));
  }

  lemma TruncateKeepsCollapsed(s: string)
    requires Collapsed(s)
    ensures Collapsed(Truncate(s)) && |Truncate(s)| <= MAX_RULE_TEXT + 1
  {
  }

  /** Whatever the rule text, what reaches the prompt holds none of the six markers, is whitespace-collapsed
      and at most 241 characters long. */
  lemma SanitizedIsSafe(text: string)
    ensures
      var r := SanitizeWith(text, MARKERS);
      && (forall m | m in MARKERS :: !Contains(r, m))
      && Collapsed(r)
      && |r| <= 241
  {
    hide Contains, Collapse, ReplaceAll, Truncate, Collapsed;
    var replaced := ReplaceAll(Collapse(text), MARKERS);
    MarkersArePlain();
    CollapseCollapses(replaced);
    TruncateKeepsCollapsed(Collapse(replaced));
    forall m | m in MARKERS
      ensures !Contains(SanitizeWith(text, MARKERS), m)
    {
      if Contains(SanitizeWith(text, MARKERS), m) {
        TruncateCreatesNothing(Collapse(replaced), m);
        CollapseCreatesNothing(replaced, m);
        ReplaceAllRemoves(Collapse(text), MARKERS, m);
      }
    }
  }

  // ---------- clean text passes unchanged ----------

  /** Behind a blank, collapsed text goes on with collapsed text. */
  lemma BehindBlank(s: string, k: nat)
    requires Collapsed(s) && k < |s| && IsSpace(s[k])
    ensures k + 1 < |s| && s[k] == ' ' && Collapsed(s[k + 1..])
  {
    var rest := s[k + 1..];
    forall i | 0 <= i < |rest| && IsSpace(rest[i])
      ensures rest[i] == ' ' && 0 < i < |rest| - 1 && !IsSpace(rest[i + 1])
    {
      assert rest[i] == s[k + 1 + i];
    }
  }

  lemma CutOut(s: string, k: nat)
    requires k < |s|
    ensures s == s[..k] + [s[k]] + s[k + 1..]
  {
  }

  /** Collapsed text is a word, or a word, one blank and collapsed text again. */
  lemma FirstWord(s: string)
    requires Collapsed(s) && s != ""
    ensures
      var n := RunLength(NotSpace, s);
      && IsRun(NotSpace, s[..n])
      && (n == |s| ==> s[..n] == s)
      && (n < |s| ==> s == s[..n] + [' '] + s[n + 1..] && Collapsed(s[n + 1..]) && s[n + 1..] != "")
  {
    var n := RunLength(NotSpace, s);
    assert n > 0;
    hide RunLength, Collapsed, IsSpace;
    if n < |s| {
      BehindBlank(s, n);
      CutOut(s, n);
    }
  }

  lemma {:induction false} CollapseFixes(s: string)
    requires Collapsed(s)
    ensures Collapse(s) == s
    decreases |s|
  {
    if s == "" {
    } else {
      hide Runs, Collapsed, RunLength, IsRun;
      var n := RunLength(NotSpace, s);
      var word := s[..n];
      FirstWord(s);
      RunsOfRun(NotSpace, word);
      if n < |s| {
        var rest := s[n + 1..];
        CollapseFixes(rest);
        RunsSplit(NotSpace, word, ' ', rest);
        JoinCons(word, Runs(NotSpace, rest), " ");
      }
    }
  }

  lemma {:induction false} ReplaceAllFixes(s: string, markers: seq<string>)
    requires NonEmpty(markers) && forall i | 0 <= i < |markers| :: !Contains(s, markers[i])
    ensures ReplaceAll(s, markers) == s
  {
    hide Contains;
    if markers == [] {
    } else {
      assert SplitOn(s, markers[0]) == [s];
      ReplaceAllFixes(s, markers[1..]);
    }
  }

  /** Collapsed text without markers that fits is left alone. */
  lemma CleanTextUnchanged(text: string)
    requires Collapsed(text) && (forall m | m in MARKERS :: !Contains(text, m))
    ensures SanitizeWith(text, MARKERS) == Truncate(text)
  {
    hide Contains, Collapse, ReplaceAll, Truncate, Collapsed;
    CollapseFixes(text);
    ReplaceAllFixes(text, MARKERS);
  }

  lemma TruncateIdempotent(s: string)
    ensures Truncate(Truncate(s)) == Truncate(s)
  {
  }

  /** Sanitizing twice is sanitizing once. */
  lemma SanitizeIdempotent(text: string)
    ensures SanitizeWith(SanitizeWith(text, MARKERS), MARKERS) == SanitizeWith(text, MARKERS)
  {
    hide Contains, Collapse, ReplaceAll, Truncate, Collapsed;
    var r := SanitizeWith(text, MARKERS);
    SanitizedIsSafe(text);
    CleanTextUnchanged(r);
    TruncateIdempotent(Collapse(ReplaceAll(Collapse(text), MARKERS)));
  }

  // ---------- triggered rules ----------

  /** Active, not past its expiry, and triggered by the query. */
  function Shown(n: Normaliser, query: string, now: int): Rule -> bool {
    (r: Rule) =>
      r.status == Active && (r.expiresAt == None || r.expiresAt.value > now) && IsTriggered(n, r.keywords, query)
  }

  function Render(now: int): Rule -> string {
    (r: Rule) =>
      (if r.activatedAt.Some? && now - r.activatedAt.value <= NEW_RULE_WINDOW then "[NEW] " else "")
      + SanitizeWith(r.text, MARKERS)
  }

  method LoadTriggeredRules(n: Normaliser, rules: seq<Rule>, query: string, now: int) returns (rendered: seq<string>)
    ensures rendered == Map(Render(now), Filter(Shown(n, query, now), rules))
  {
    hide SanitizeWith, IsTriggered, Map, Filter;
    rendered := [];
    assert rules[..0] == [];
    NothingRendered(n, query, now);
    for i := 0 to |rules|
      invariant rendered == Map(Render(now), Filter(Shown(n, query, now), rules[..i]))
    {
      var rule := rules[i];
      RenderedStep(n, rules, i, query, now);
      if rule.status != Active {
        continue;
      }
      if rule.expiresAt.Some? && rule.expiresAt.value <= now {
        continue;
      }
      if !IsTriggered(n, rule.keywords, query) {
        continue;
      }
      var isNew := rule.activatedAt.Some? && now - rule.activatedAt.value <= NEW_RULE_WINDOW;
      var text := Sanitize(rule.text);
      rendered := rendered + [(if isNew then "[NEW] " else "") + text];
    }
    assert rules[..|rules|] == rules;
  }

  lemma NothingRendered(n: Normaliser, query: string, now: int)
    ensures Map(Render(now), Filter(Shown(n, query, now), [])) == []
  {
  }

  lemma RenderedStep(n: Normaliser, rules: seq<Rule>, i: nat, query: string, now: int)
    requires i < |rules|
    ensures Map(Render(now), Filter(Shown(n, query, now), rules[..i + 1]))
         == Map(Render(now), Filter(Shown(n, query, now), rules[..i]))
            + if Shown(n, query, now)(rules[i]) then [Render(now)(rules[i])] else []
  {
    hide SanitizeWith, IsTriggered;
    var shown, rule := Shown(n, query, now), rules[i];
    assert rules[..i + 1] == rules[..i] + [rule];
    FilterAppend(shown, rules[..i], [rule]);
    assert [rule][1..] == [];
    MapAppend(Render(now), Filter(shown, rules[..i]), Filter(shown, [rule]));
  }

  /** In every reachable state, the rules injected for one query hold no two with opposite effects on a
      shared trigger term; for a query with a single term they hold no two with opposite effects at all. */
  lemma InjectedRulesConsistent(n: Normaliser, steps: seq<Step>, query: string, now: int, i: nat, j: nat)
    requires i < |Run(n, RuleService.EMPTY, steps).rules| && j < |Run(n, RuleService.EMPTY, steps).rules| && i != j
    requires
      var rules := Run(n, RuleService.EMPTY, steps).rules;
      Shown(n, query, now)(rules[i]) && Shown(n, query, now)(rules[j])
    ensures
      var rules := Run(n, RuleService.EMPTY, steps).rules;
      && !(TriggersOverlap(n, rules[i].keywords, rules[j].keywords)
           && OppositeEffects(n, rules[i].effect, rules[j].effect))
      && (|n.terms(query)| == 1 ==> !OppositeEffects(n, rules[i].effect, rules[j].effect))
  {
    hide Run, Count, TriggerTerms, OppositeEffects;
    var rules := Run(n, RuleService.EMPTY, steps).rules;
    ActiveRulesAreSafe(n, steps);
    assert !Clash(n, rules[i], rules[j]);
    if |n.terms(query)| == 1 {
      var t :| n.terms(query) == {t} by {
        SingletonSet(n.terms(query));
      }
      OneTermShared(TriggerTerms(n, rules[i].keywords), TriggerTerms(n, rules[j].keywords), t);
    }
  }

  /** After some history, two rules with opposite effects are injected for the query at once. */
  ghost predicate FiresOpposite(n: Normaliser, query: string, steps: seq<Step>, now: int, i: nat, j: nat) {
    var rules := Run(n, RuleService.EMPTY, steps).rules;
    && i != j && i < |rules| && j < |rules|
    && Shown(n, query, now)(rules[i]) && Shown(n, query, now)(rules[j])
    && OppositeEffects(n, rules[i].effect, rules[j].effect)
  }

  /** The query shares a term with each of two keywords that share none with one another. */
  ghost predicate Straddles(n: Normaliser, query: string, a: string, b: string) {
    && n.terms(a) * n.terms(b) == {}
    && n.terms(a) * n.terms(query) != {} && n.terms(b) * n.terms(query) != {}
  }

  /** Exactly when a query can meet opposite rules: some history leads to two injected rules with opposite effects if
      and only if there are two keywords with nothing in common that both meet the query. */
  lemma OppositeRulesIff(n: Normaliser, query: string)
    ensures (exists steps, now, i, j :: FiresOpposite(n, query, steps, now, i, j))
            <==> exists a, b :: Straddles(n, query, a, b)
  {
    if steps, now, i, j :| FiresOpposite(n, query, steps, now, i, j) {
      var a, b := OppositeRulesStraddle(n, query, steps, now, i, j);
    }
    if a, b :| Straddles(n, query, a, b) {
      StraddlingKeywordsFire(n, query, a, b);
      assert FiresOpposite(n, query, OppositePair(a, b), 0, 0, 1);
    }
  }

  lemma OppositeRulesStraddle(n: Normaliser, query: string, steps: seq<Step>, now: int, i: nat, j: nat)
    returns (a: string, b: string)
    requires FiresOpposite(n, query, steps, now, i, j)
    ensures Straddles(n, query, a, b)
  {
    hide Run, Count, OppositeEffects;
    var rules := Run(n, RuleService.EMPTY, steps).rules;
    InjectedRulesConsistent(n, steps, query, now, i, j);
    a := MeetingKeyword(n, rules[i].keywords, query);
    b := MeetingKeyword(n, rules[j].keywords, query);
    assert n.terms(a) <= TriggerTerms(n, rules[i].keywords) && n.terms(b) <= TriggerTerms(n, rules[j].keywords);
  }

  lemma MeetingKeyword(n: Normaliser, keywords: seq<string>, query: string) returns (k: string)
    requires IsTriggered(n, keywords, query)
    ensures k in keywords && n.terms(k) * n.terms(query) != {}
  {
    var t :| t in TriggerTerms(n, keywords) * n.terms(query);
    k :| k in keywords && t in n.terms(k);
    assert t in n.terms(k) * n.terms(query);
  }

  function PairDraft(keyword: string, polarity: string): Draft {
    Draft("x", "global", [keyword], Effect(Some("x"), polarity), 1, "user_explicit")
  }

  /** Propose and approve one rule for each keyword, with opposite polarities. */
  function OppositePair(a: string, b: string): seq<Step> {
    Raise(0, PairDraft(a, "affirm")) + (Raise(1, PairDraft(b, "negate")) + [])
  }

  function PairRule(id: nat, keyword: string, polarity: string): Rule {
    Activated(NewRule(id, PairDraft(keyword, polarity)), "user", 0)
  }

  lemma StraddlingKeywordsFire(n: Normaliser, query: string, a: string, b: string)
    requires Straddles(n, query, a, b)
    ensures FiresOpposite(n, query, OppositePair(a, b), 0, 0, 1)
  {
    var first, second := PairRule(0, a, "affirm"), PairRule(1, b, "negate");
    PairRunsThrough(n, a, b);
    OneKeyword(n, a);
    OneKeyword(n, b);
  }

  lemma OneKeyword(n: Normaliser, keyword: string)
    ensures TriggerTerms(n, [keyword]) == n.terms(keyword)
  {
    assert keyword in [keyword];
  }

  /** Both approvals go through: neither rule is known to conflict with anything. */
  lemma PairRunsThrough(n: Normaliser, a: string, b: string)
    requires n.terms(a) * n.terms(b) == {}
    ensures Run(n, RuleService.EMPTY, OppositePair(a, b))
        == State([PairRule(0, a, "affirm"), PairRule(1, b, "negate")], [])
  {
    hide Run, PairDraft, PairRule, Raise;
    FirstRaised(n, a, Raise(1, PairDraft(b, "negate")) + []);
    SecondRaised(n, a, b);
  }

  lemma FirstRaised(n: Normaliser, a: string, rest: seq<Step>)
    ensures Run(n, RuleService.EMPTY, Raise(0, PairDraft(a, "affirm")) + rest)
        == Run(n, State([PairRule(0, a, "affirm")], []), rest)
  {
    FirstUnopposed(n, a);
    hide Run, DetectConflicts, ActiveSpecs, NewRule, Activated, Raise;
    RaisedUnopposed(n, [], PairDraft(a, "affirm"), rest);
    assert [] + [PairRule(0, a, "affirm")] == [PairRule(0, a, "affirm")];
  }

  lemma SecondRaised(n: Normaliser, a: string, b: string)
    requires n.terms(a) * n.terms(b) == {}
    ensures Run(n, State([PairRule(0, a, "affirm")], []), Raise(1, PairDraft(b, "negate")) + [])
         == State([PairRule(0, a, "affirm"), PairRule(1, b, "negate")], [])
  {
    SecondUnopposed(n, a, b);
    hide Run, DetectConflicts, ActiveSpecs, NewRule, Activated, Raise;
    var first, second := PairRule(0, a, "affirm"), PairRule(1, b, "negate");
    RaisedUnopposed(n, [first], PairDraft(b, "negate"), []);
    assert [first] + [second] == [first, second];
    RunNothing(n, State([first, second], []));
  }

  lemma FirstUnopposed(n: Normaliser, a: string)
    ensures DetectConflicts(n, SpecOf(NewRule(0, PairDraft(a, "affirm"))), ActiveSpecs([], 0), DEFAULT_CAPS) == []
  {
  }

  lemma SecondUnopposed(n: Normaliser, a: string, b: string)
    requires n.terms(a) * n.terms(b) == {}
    ensures DetectConflicts(n, SpecOf(NewRule(1, PairDraft(b, "negate"))),
                            ActiveSpecs([PairRule(0, a, "affirm")], 1), DEFAULT_CAPS) == []
  {
    hide TriggerTerms, OppositeEffects;
    var first, spec := SpecOf(PairRule(0, a, "affirm")), SpecOf(NewRule(1, PairDraft(b, "negate")));
    OneKeyword(n, a);
    OneKeyword(n, b);
    assert n.terms(b) * n.terms(a) == n.terms(a) * n.terms(b);
    assert !TriggersOverlap(n, spec.keywords, first.keywords);
    assert [PairRule(0, a, "affirm")][1..] == [] && ActiveSpecs([PairRule(0, a, "affirm")], 1) == [first];
    assert [first][1..] == [] && Filter(InDomain("global"), [first]) == [first];
    assert CheckAgainst(n, spec)(first) == [];
    assert FlatMap(CheckAgainst(n, spec), [first]) == [] + FlatMap(CheckAgainst(n, spec), []);
    assert [1][1..] == [] && Map(ArtifactCost, [first]) == [1] && Sum([1]) == 1;
    assert CapConflicts(spec, [first], DEFAULT_CAPS) == [];
  }

  /** With the terms the service uses: rules on `x` and on `y`, and a message that mentions both. */
  lemma GermanRulesCanOppose()
    ensures FiresOpposite(GERMAN, "x y", OppositePair("x", "y"), 0, 0, 1)
  {
    hide Straddles, FiresOpposite, OppositePair;
    LettersStraddle();
    StraddlingKeywordsFire(GERMAN, "x y", "x", "y");
  }

  lemma LettersStraddle()
    ensures Straddles(GERMAN, "x y", "x", "y")
  {
    LettersTerms();
    hide TextNorm.QueryTerms;
    assert "x"[0] != "y"[0];
    TwoLettersStraddle(GERMAN, "x", "y", "x y");
  }

  lemma LettersTerms()
    ensures TextNorm.QueryTerms("x") == {"x"} && TextNorm.QueryTerms("y") == {"y"}
        && TextNorm.QueryTerms("x y") == {"x", "y"}
  {
    hide TextNorm.QueryTerms;
    TextNorm.LetterIsItsTerm('x');
    TextNorm.LetterIsItsTerm('y');
    TextNorm.QueryTermsUnion("x", ' ', "y");
    assert "x" + [' '] + "y" == "x y";
  }

  lemma TwoLettersStraddle(n: Normaliser, a: string, b: string, query: string)
    requires n.terms(a) == {a} && n.terms(b) == {b} && n.terms(query) == {a, b} && a != b
    ensures Straddles(n, query, a, b)
  {
    assert a in n.terms(a) * n.terms(query) && b in n.terms(b) * n.terms(query);
  }

  lemma SingletonSet<T>(s: set<T>)
    requires |s| == 1
    ensures exists t :: s == {t}
  {
    var t :| t in s;
    assert |s - {t}| == 0;
    assert s == {t};
  }

  lemma OneTermShared(a: set<string>, b: set<string>, t: string)
    requires a * {t} != {} && b * {t} != {}
    ensures a * b != {}
  {
  }

  // ---------- facts ----------

  function Offered(providerIsLocal: bool): Claims.Claim -> bool {
    (c: Claims.Claim) => Claims.IsLive(c) && (providerIsLocal || Claims.CloudSafe(c.data.sensitivity))
  }

  function ToCandidate(idText: nat -> string): Claims.Claim -> Retrieval.Candidate {
    (c: Claims.Claim) => Retrieval.Candidate(idText(c.id), c.data.lane, c.data.subject, c.data.content,
                                             c.data.confidence)
  }

  function FactCandidates(idText: nat -> string, claims: seq<Claims.Claim>, providerIsLocal: bool)
    : seq<Retrieval.Candidate>
  {
    Map(ToCandidate(idText), Filter(Offered(providerIsLocal), claims))
  }

  method LoadFactCandidates(idText: nat -> string, claims: seq<Claims.Claim>, providerIsLocal: bool)
    returns (candidates: seq<Retrieval.Candidate>)
    ensures candidates == FactCandidates(idText, claims, providerIsLocal)
  {
    hide Map, Filter, Claims.CloudSafe, ToCandidate;
    candidates := [];
    var rows := Filter(Claims.IsLive, claims);
    assert rows[..0] == [];
    NothingOffered(idText, providerIsLocal);
    for i := 0 to |rows|
      invariant candidates == FactCandidates(idText, rows[..i], providerIsLocal)
    {
      OfferedStep(idText, rows, i, providerIsLocal);
      assert rows[i] in rows;
      FilterMember(Claims.IsLive, claims, rows[i]);
      if !providerIsLocal && !Claims.CloudSafe(rows[i].data.sensitivity) {
        continue;
      }
      candidates := candidates + [ToCandidate(idText)(rows[i])];
    }
    assert rows[..|rows|] == rows;
    FilterTwice(Offered(providerIsLocal), Claims.IsLive, Offered(providerIsLocal), claims);
  }

  lemma NothingOffered(idText: nat -> string, providerIsLocal: bool)
    ensures FactCandidates(idText, [], providerIsLocal) == []
  {
  }

  lemma OfferedStep(idText: nat -> string, rows: seq<Claims.Claim>, i: nat, providerIsLocal: bool)
    requires i < |rows|
    ensures FactCandidates(idText, rows[..i + 1], providerIsLocal)
         == FactCandidates(idText, rows[..i], providerIsLocal)
            + if Offered(providerIsLocal)(rows[i]) then [ToCandidate(idText)(rows[i])] else []
  {
    hide ToCandidate, Claims.CloudSafe;
    var offered, row := Offered(providerIsLocal), rows[i];
    assert rows[..i + 1] == rows[..i] + [row];
    FilterAppend(offered, rows[..i], [row]);
    assert [row][1..] == [];
    MapAppend(ToCandidate(idText), Filter(offered, rows[..i]), Filter(offered, [row]));
  }

  /** Every fact in an injection is an active claim outside the authorization lane, and a provider that is
      not local never sees an S3 or S4 claim. */
  lemma RecallExposesOnlyAllowed(idText: nat -> string, claims: seq<Claims.Claim>, providerIsLocal: bool,
                                 score: Retrieval.Candidate -> real, budget: int, minScore: real,
                                     cand: Retrieval.Candidate)
    requires
      var r := Retrieval.AssembleBy(score, FactCandidates(idText, claims, providerIsLocal), budget, minScore);
      cand in r.identity || Retrieval.Scored(cand, score(cand)) in r.relevant
    ensures exists c ::
              && c in claims && ToCandidate(idText)(c) == cand
              && Claims.IsLive(c) && c.data.lane != Lanes.Authorization
              && (providerIsLocal || !(c.data.sensitivity.S3? || c.data.sensitivity.S4?))
  {
    hide Retrieval.AssembleBy;
    var candidates := FactCandidates(idText, claims, providerIsLocal);
    Retrieval.NothingElseAppears(score, candidates, budget, minScore);
    assert cand in candidates && cand.lane != Lanes.Authorization;
    var rows := Filter(Offered(providerIsLocal), claims);
    var k :| 0 <= k < |candidates| && candidates[k] == cand;
    FilterMember(Offered(providerIsLocal), claims, rows[k]);
    assert ToCandidate(idText)(rows[k]) == cand;
  }

  /** Facts are ranked the same however the rows come back from the database. */
  lemma RecallIgnoresRowOrder(idText: nat -> string, a: seq<Claims.Claim>, b: seq<Claims.Claim>, providerIsLocal: bool,
                              score: Retrieval.Candidate -> real, budget: int, minScore: real)
    requires multiset(a) == multiset(b)
    requires DistinctBy((c: Claims.Claim) => idText(c.id), a)
    ensures Retrieval.AssembleBy(score, FactCandidates(idText, a, providerIsLocal), budget, minScore)
         == Retrieval.AssembleBy(score, FactCandidates(idText, b, providerIsLocal), budget, minScore)
  {
    hide Retrieval.AssembleBy;
    FilterSameElements(Offered(providerIsLocal), a, b);
    MapSameElements(ToCandidate(idText), Filter(Offered(providerIsLocal), a), Filter(Offered(providerIsLocal), b));
    DistinctByFilter((c: Claims.Claim) => idText(c.id), Offered(providerIsLocal), a);
    Retrieval.OrderIndependent(score, FactCandidates(idText, a, providerIsLocal),
                               FactCandidates(idText, b, providerIsLocal), budget, minScore);
  }
}
