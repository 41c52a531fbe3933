/** Behavioral-rule matching and conflict detection. */
module Rules {
  import opened Prelude
  import opened Text
  import TextNorm

  /** The two text functions rule matching calls. The safety results hold for every choice of them. */
  datatype Normaliser = Normaliser(terms: string -> set<string>, stem: string -> string)

  const GERMAN: Normaliser := Normaliser(TextNorm.QueryTerms, TextNorm.Stem)

  datatype Caps = Caps(domainRules: int, globalRules: int, domainArtifacts: int)

  const DEFAULT_CAPS: Caps := Caps(5, 20, 10)

  datatype Effect = Effect(action: Option<string>, polarity: string)

  datatype RuleSpec = RuleSpec(id: nat, domain: string, keywords: seq<string>, effect: Effect, artifactCost: int)

  datatype Kind = Direct | Interaction | Cap | Budget

  datatype Severity = Hard | Soft

  /** What the conflict's message interpolates; equal details are equal messages. */
  datatype Detail =
    | Contradicts(other: nat, action: string)
    | Overlaps(other: nat)
    | DomainFull(domain: string, count: nat, cap: int)
    | AllFull(count: nat, cap: int)
    | TooManyArtifacts(domain: string, artifacts: int, budget: int)

  datatype RuleConflict = RuleConflict(kind: Kind, severity: Severity, detail: Detail, other: Option<nat>)

  function TriggerTerms(n: Normaliser, keywords: seq<string>): set<string> {
    UnionMap(n.terms, keywords)
  }

  predicate TriggersOverlap(n: Normaliser, left: seq<string>, right: seq<string>) {
    TriggerTerms(n, left) * TriggerTerms(n, right) != {}
  }

  predicate IsTriggered(n: Normaliser, keywords: seq<string>, query: string) {
    var terms := TriggerTerms(n, keywords);
    terms != {} && terms * n.terms(query) != {}
  }

  function ActionKey(n: Normaliser, effect: Effect): Option<string> {
    match effect.action
    case Some(action) => Some(n.stem(action))
    case None => None
  }

  /** Same action, opposite polarity. */
  predicate OppositeEffects(n: Normaliser, a: Effect, b: Effect) {
    ActionKey(n, a).Some? && ActionKey(n, a) == ActionKey(n, b) && a.polarity != b.polarity
  }

  predicate DirectlyContradicts(n: Normaliser, a: RuleSpec, b: RuleSpec) {
    TriggersOverlap(n, a.keywords, b.keywords) && OppositeEffects(n, a.effect, b.effect)
  }

  function CheckAgainst(n: Normaliser, proposed: RuleSpec): RuleSpec -> seq<RuleConflict> {
    (rule: RuleSpec) =>
      if !TriggersOverlap(n, proposed.keywords, rule.keywords) then []
      else if OppositeEffects(n, proposed.effect, rule.effect) then
        [RuleConflict(Direct, Hard, Contradicts(rule.id, ActionKey(n, rule.effect).value), Some(rule.id))]
      else [RuleConflict(Interaction, Soft, Overlaps(rule.id), Some(rule.id))]
  }

  function InDomain(domain: string): RuleSpec -> bool {
    (r: RuleSpec) => r.domain == domain
  }

  function ArtifactCost(r: RuleSpec): int {
    r.artifactCost
  }

  function CapConflicts(proposed: RuleSpec, active: seq<RuleSpec>, caps: Caps): seq<RuleConflict> {
    var sameDomain := Filter(InDomain(proposed.domain), active);
    var artifacts := Sum(Map(ArtifactCost, sameDomain)) + proposed.artifactCost;
    (if |sameDomain| >= caps.domainRules
     then [RuleConflict(Cap, Hard, DomainFull(proposed.domain, |sameDomain|, caps.domainRules), None)] else [])
    + (if |active| >= caps.globalRules
       then [RuleConflict(Cap, Hard, AllFull(|active|, caps.globalRules), None)] else [])
    + (if artifacts > caps.domainArtifacts
       then [RuleConflict(Budget, Soft, TooManyArtifacts(proposed.domain, artifacts, caps.domainArtifacts), None)]
           else [])
  }

  function DetectConflicts(n: Normaliser, proposed: RuleSpec, active: seq<RuleSpec>, caps: Caps): seq<RuleConflict> {
    FlatMap(CheckAgainst(n, proposed), active) + CapConflicts(proposed, active, caps)
  }

  predicate IsHard(c: RuleConflict) {
    c.severity == Hard
  }

  predicate HasHardConflict(conflicts: seq<RuleConflict>) {
    exists c :: c in conflicts && IsHard(c)
  }

  method ComputeTriggerTerms(n: Normaliser, keywords: seq<string>) returns (terms: set<string>)
    ensures terms == TriggerTerms(n, keywords)
  {
    terms := {};
    for i := 0 to |keywords|
      invariant terms == UnionMap(n.terms, keywords[..i])
    {
      assert keywords[..i + 1] == keywords[..i] + [keywords[i]];
      terms := terms + n.terms(keywords[i]);
    }
    assert keywords[..|keywords|] == keywords;
  }

  method ComputeConflicts(n: Normaliser, proposed: RuleSpec, active: seq<RuleSpec>, caps: Caps)
    returns (conflicts: seq<RuleConflict>)
    ensures conflicts == DetectConflicts(n, proposed, active, caps)
  {
    conflicts := [];
    var proposedAction := ActionKey(n, proposed.effect);
    for i := 0 to |active|
      invariant conflicts == FlatMap(CheckAgainst(n, proposed), active[..i])
    {
      var rule := active[i];
      assert active[..i + 1] == active[..i] + [rule];
      FlatMapSnoc(CheckAgainst(n, proposed), active[..i], rule);
      if !TriggersOverlap(n, proposed.keywords, rule.keywords) {
        continue;
      }
      var ruleAction := ActionKey(n, rule.effect);
      if proposedAction != None && proposedAction == ruleAction && proposed.effect.polarity != rule.effect.polarity {
        conflicts := conflicts + [RuleConflict(Direct, Hard, Contradicts(rule.id, ruleAction.value), Some(rule.id))];
      } else {
        conflicts := conflicts + [RuleConflict(Interaction, Soft, Overlaps(rule.id), Some(rule.id))];
      }
    }
    assert active[..|active|] == active;
    conflicts := conflicts + CapConflicts(proposed, active, caps);
  }

  // ---------- what detection means ----------

  lemma ContradictionIsSymmetric(n: Normaliser, a: RuleSpec, b: RuleSpec)
    ensures DirectlyContradicts(n, a, b) == DirectlyContradicts(n, b, a)
  {
  }

  /** Hard conflicts are exactly: a direct contradiction of an active rule, or a full domain, or a full table. */
  lemma HardConflictIff(n: Normaliser, proposed: RuleSpec, active: seq<RuleSpec>, caps: Caps)
    ensures HasHardConflict(DetectConflicts(n, proposed, active, caps)) <==>
            || (exists r :: r in active && DirectlyContradicts(n, proposed, r))
            || |Filter(InDomain(proposed.domain), active)| >= caps.domainRules
            || |active| >= caps.globalRules
  {
    hide TriggersOverlap, OppositeEffects;
    var check := CheckAgainst(n, proposed);
    var conflicts, capped := FlatMap(check, active), CapConflicts(proposed, active, caps);
    if r :| r in active && DirectlyContradicts(n, proposed, r) {
      var c := check(r)[0];
      assert c in check(r);
      FlatMapMember(check, active, c);
      assert c in DetectConflicts(n, proposed, active, caps) && IsHard(c);
    }
    if |Filter(InDomain(proposed.domain), active)| >= caps.domainRules || |active| >= caps.globalRules {
      assert IsHard(capped[0]) && capped[0] in conflicts + capped;
    }
    if c :| c in conflicts + capped && IsHard(c) {
      if c in conflicts {
        FlatMapMember(check, active, c);
        var r :| r in active && c in check(r);
        assert DirectlyContradicts(n, proposed, r);
      }
    }
  }

  /** The kind of a detected conflict decides its severity. */
  lemma SeverityByKind(n: Normaliser, proposed: RuleSpec, active: seq<RuleSpec>, caps: Caps, c: RuleConflict)
    requires c in DetectConflicts(n, proposed, active, caps)
    ensures IsHard(c) <==> c.kind in {Direct, Cap}
  {
    hide TriggersOverlap, OppositeEffects;
    FlatMapMember(CheckAgainst(n, proposed), active, c);
  }

  // ---------- triggers ----------

  /** Grouping does not matter: a trigger's terms are the terms of its keywords written as one text,
      whatever non-word character separates them. */
  lemma {:induction false} TriggerTermsUngrouped(keywords: seq<string>, c: char)
    requires !TextNorm.IsWordChar(c)
    ensures TriggerTerms(GERMAN, keywords) == TextNorm.QueryTerms(Join(keywords, [c]))
  {
    hide TextNorm.QueryTerms, TextNorm.IsWordChar;
    if keywords == [] {
      TextNorm.NoTerms();
    } else if |keywords| > 1 {
      var rest := Join(keywords[1..], [c]);
      TriggerTermsUngrouped(keywords[1..], c);
      TextNorm.QueryTermsUnion(keywords[0], c, rest);
      assert Join(keywords, [c]) == keywords[0] + [c] + rest;
      assert keywords == [keywords[0]] + keywords[1..];
    }
  }

  /** Order, repetition and grouping of the keywords do not matter: two triggers whose keywords are made of the same
      words have the same terms. */
  lemma TriggerTermsRegrouped(a: seq<string>, b: seq<string>, c: char)
    requires !TextNorm.IsWordChar(c)
    requires forall w :: w in Runs(TextNorm.IsWordChar, Join(a, [c])) <==> w in Runs(TextNorm.IsWordChar, Join(b, [c]))
    ensures TriggerTerms(GERMAN, a) == TriggerTerms(GERMAN, b)
  {
    hide TextNorm.QueryTerms, TriggerTerms, TextNorm.IsWordChar;
    TriggerTermsUngrouped(a, c);
    TriggerTermsUngrouped(b, c);
    TextNorm.QueryTermsByWords(Join(a, [c]), Join(b, [c]));
  }

  /** Text added behind a separator never switches a trigger off. */
  lemma TriggerMonotone(keywords: seq<string>, query: string, c: char, more: string)
    requires !TextNorm.IsWordChar(c) && IsTriggered(GERMAN, keywords, query)
    ensures IsTriggered(GERMAN, keywords, query + [c] + more)
    ensures IsTriggered(GERMAN, keywords, more + [c] + query)
  {
    hide TextNorm.QueryTerms, TextNorm.IsWordChar;
    TextNorm.QueryTermsUnion(query, c, more);
    TextNorm.QueryTermsUnion(more, c, query);
    var t :| t in TriggerTerms(GERMAN, keywords) * TextNorm.QueryTerms(query);
    assert t in TriggerTerms(GERMAN, keywords) * TextNorm.QueryTerms(query + [c] + more);
    assert t in TriggerTerms(GERMAN, keywords) * TextNorm.QueryTerms(more + [c] + query);
  }
}
