/** The life of behavioral rules: proposal, guardian decision, retirement and the nightly re-gating,
    with the ledger of detected conflicts. Each service call is one atomic step for one user. */
module RuleService {
  import opened Prelude
  import opened Text
  import opened Lanes
  import opened Rules

  const RULE_TTL: int := 30 * 24 * 60 * 60

  datatype Status = Pending | Active | Rejected | Retired

  datatype Rule = Rule(
    id: nat,
    domain: string,
    text: string,
    keywords: seq<string>,
    effect: Effect,
    artifactCost: int,
    status: Status,
    decidedBy: Option<string>,
    decidedAt: Option<int>,
    rejectionReason: Option<string>,
    activatedAt: Option<int>,
    expiresAt: Option<int>)

  datatype Record = Record(ruleId: nat, conflict: RuleConflict)

  datatype State = State(rules: seq<Rule>, ledger: seq<Record>)

  datatype Error =
    | BadSource
    | EmptyText
    | NotFound
    | NotPending
    | HardConflicts(count: nat)
    | SoftConflicts(count: nat)
    | NotRetirable(status: Status)

  datatype Outcome = Outcome(rule: Rule, conflicts: seq<RuleConflict>)

  datatype Draft = Draft(text: string, domain: string, keywords: seq<string>, effect: Effect, artifactCost: int,
                         sourceType: string)

  // ---------- detection ----------

  function SpecOf(r: Rule): RuleSpec {
    RuleSpec(r.id, r.domain, r.keywords, r.effect, r.artifactCost)
  }

  predicate IsActive(r: Rule) {
    r.status == Active
  }

  function ActiveOther(id: nat): Rule -> bool {
    (r: Rule) => r.status == Active && r.id != id
  }

  function ActiveSpecs(rules: seq<Rule>, except: nat): seq<RuleSpec> {
    Map(SpecOf, Filter(ActiveOther(except), rules))
  }

  function OfRule(id: nat): Record -> bool {
    (rec: Record) => rec.ruleId == id
  }

  function ConflictOf(rec: Record): RuleConflict {
    rec.conflict
  }

  function StoredConflicts(ledger: seq<Record>, id: nat): seq<RuleConflict> {
    Map(ConflictOf, Filter(OfRule(id), ledger))
  }

  datatype Key = Key(kind: Kind, other: Option<nat>, detail: Detail)

  function KeyOf(c: RuleConflict): Key {
    Key(c.kind, c.other, c.detail)
  }

  function Unknown(existing: seq<RuleConflict>): RuleConflict -> bool {
    var keys := set c | c in existing :: KeyOf(c);
    (c: RuleConflict) => KeyOf(c) !in keys
  }

  function RecordFor(id: nat): RuleConflict -> Record {
    (c: RuleConflict) => Record(id, c)
  }

  function Detected(n: Normaliser, s: State, id: nat): seq<RuleConflict>
    requires id < |s.rules|
  {
    DetectConflicts(n, SpecOf(s.rules[id]), ActiveSpecs(s.rules, id), DEFAULT_CAPS)
  }

  /** The detected conflicts that the ledger does not hold for this rule yet. */
  function Fresh(n: Normaliser, s: State, id: nat): seq<RuleConflict>
    requires id < |s.rules|
  {
    Filter(Unknown(StoredConflicts(s.ledger, id)), Detected(n, s, id))
  }

  function DetectAndStore(n: Normaliser, s: State, id: nat): State
    requires id < |s.rules|
  {
    s.(ledger := s.ledger + Map(RecordFor(id), Fresh(n, s, id)))
  }

  /** Everything detection hands back: what the ledger held and what it added. */
  function AllConflicts(n: Normaliser, s: State, id: nat): seq<RuleConflict>
    requires id < |s.rules|
  {
    StoredConflicts(s.ledger, id) + Fresh(n, s, id)
  }

  ghost predicate HasHardRecord(ledger: seq<Record>, id: nat) {
    exists rec :: rec in ledger && rec.ruleId == id && IsHard(rec.conflict)
  }

  predicate IsSoft(c: RuleConflict) {
    c.severity == Soft
  }

  // ---------- steps ----------

  function NewRule(id: nat, d: Draft): Rule {
    Rule(id, d.domain, Strip(d.text), d.keywords, d.effect, d.artifactCost, Pending, None, None, None, None, None)
  }

  function Propose(n: Normaliser, s: State, d: Draft): (State, Result<Outcome, Error>) {
    if SourceCategory(d.sourceType) != Observation then (s, Failure(BadSource))
    else if Strip(d.text) == "" then (s, Failure(EmptyText))
    else
      var id := |s.rules|;
      var rule := NewRule(id, d);
      var added := s.(rules := s.rules + [rule]);
      (DetectAndStore(n, added, id), Success(Outcome(rule, AllConflicts(n, added, id))))
  }

  function Activated(r: Rule, decidedBy: string, now: int): Rule {
    r.(status := Active, decidedBy := Some(decidedBy), decidedAt := Some(now),
       activatedAt := Some(now), expiresAt := Some(now + RULE_TTL))
  }

  /** Hard conflicts always block; soft ones block unless overridden. Detection is recorded either way. */
  function Approve(n: Normaliser, s: State, id: nat, decidedBy: string, overrideSoft: bool, now: int)
    : (State, Result<Rule, Error>)
  {
    if id >= |s.rules| then (s, Failure(NotFound))
    else if s.rules[id].status != Pending then (s, Failure(NotPending))
    else
      var conflicts := AllConflicts(n, s, id);
      var s1 := DetectAndStore(n, s, id);
      var hard, soft := Count(IsHard, conflicts), Count(IsSoft, conflicts);
      if hard > 0 then (s1, Failure(HardConflicts(hard)))
      else if soft > 0 && !overrideSoft then (s1, Failure(SoftConflicts(soft)))
      else
        var rule := Activated(s.rules[id], decidedBy, now);
        (s1.(rules := s.rules[id := rule]), Success(rule))
  }

  function Reject(s: State, id: nat, decidedBy: string, reason: Option<string>, now: int)
    : (State, Result<Rule, Error>)
  {
    if id >= |s.rules| then (s, Failure(NotFound))
    else if s.rules[id].status != Pending then (s, Failure(NotPending))
    else
      var rule := s.rules[id].(status := Rejected, decidedBy := Some(decidedBy), decidedAt := Some(now),
                               rejectionReason := reason);
      (s.(rules := s.rules[id := rule]), Success(rule))
  }

  function Retire(s: State, id: nat, decidedBy: string, reason: Option<string>, now: int)
    : (State, Result<Rule, Error>)
  {
    if id >= |s.rules| then (s, Failure(NotFound))
    else
      var r := s.rules[id];
      if r.status != Active && r.status != Pending then (s, Failure(NotRetirable(r.status)))
      else
        var rule := r.(status := Retired, decidedBy := Some(decidedBy), decidedAt := Some(now),
                       rejectionReason := if reason == None || reason == Some("") then r.rejectionReason else reason);
        (s.(rules := s.rules[id := rule]), Success(rule))
  }

  predicate Expired(r: Rule, now: int) {
    r.status == Active && r.expiresAt.Some? && r.expiresAt.value <= now
  }

  function IsExpired(now: int): Rule -> bool {
    (r: Rule) => Expired(r, now)
  }

  function ReGate(now: int): Rule -> Rule {
    (r: Rule) => if Expired(r, now) then r.(status := Pending, activatedAt := None) else r
  }

  function CleanUp(s: State, now: int): State {
    s.(rules := Map(ReGate(now), s.rules))
  }

  datatype Step =
    | ProposeStep(draft: Draft)
    | ApproveStep(id: nat, decidedBy: string, overrideSoft: bool, now: int)
    | RejectStep(id: nat, decidedBy: string, reason: Option<string>, now: int)
    | RetireStep(id: nat, decidedBy: string, reason: Option<string>, now: int)
    | CleanUpStep(now: int)

  function Apply(n: Normaliser, s: State, step: Step): State {
    match step
    case ProposeStep(draft) => Propose(n, s, draft).0
    case ApproveStep(id, who, overrideSoft, now) => Approve(n, s, id, who, overrideSoft, now).0
    case RejectStep(id, who, reason, now) => Reject(s, id, who, reason, now).0
    case RetireStep(id, who, reason, now) => Retire(s, id, who, reason, now).0
    case CleanUpStep(now) => CleanUp(s, now)
  }

  function Run(n: Normaliser, s: State, steps: seq<Step>): State
    decreases |steps|
  {
    if steps == [] then s else Run(n, Apply(n, s, steps[0]), steps[1..])
  }

  const EMPTY: State := State([], [])

  /** One rule got a new status and its decision, and nothing a conflict could depend on: its text, trigger and
      effect, every other rule and the whole ledger are as before. */
  ghost predicate OnlyDecided(s: State, after: State, id: nat, status: Status, decidedBy: string, now: int)
    requires id < |s.rules|
  {
    && after.ledger == s.ledger && |after.rules| == |s.rules|
    && (forall i | 0 <= i < |s.rules| && i != id :: after.rules[i] == s.rules[i])
    && SpecOf(after.rules[id]) == SpecOf(s.rules[id]) && after.rules[id].text == s.rules[id].text
    && after.rules[id].status == status
    && after.rules[id].decidedBy == Some(decidedBy) && after.rules[id].decidedAt == Some(now)
  }

  // ---------- the service ----------

  class BehavioralRuleService {
    const n: Normaliser
    var rules: seq<Rule>
    var ledger: seq<Record>

    function St(): State
      reads this
    {
      State(rules, ledger)
    }

    /** No clash among active rules, the caps, and no active rule with a hard record. */
    ghost predicate Valid()
      reads this
    {
      Inv(n, St())
    }

    constructor (n: Normaliser)
      ensures this.n == n && St() == EMPTY && Valid()
    {
      this.n := n;
      rules, ledger := [], [];
    }

    /** Appends what is new to the ledger, one record after the other. */
    method DetectAndStoreConflicts(id: nat) returns (stored: seq<RuleConflict>)
      requires id < |rules|
      modifies this`ledger
      ensures St() == DetectAndStore(n, old(St()), id)
      ensures stored == AllConflicts(n, old(St()), id)
    {
      hide DetectConflicts, ActiveSpecs, Unknown;
      var detected := ComputeConflicts(n, SpecOf(rules[id]), ActiveSpecs(rules, id), DEFAULT_CAPS);
      var existing := StoredConflicts(ledger, id);
      ghost var before, kept: seq<RuleConflict> := ledger, [];
      stored := existing;
      for i := 0 to |detected|
        invariant kept == Filter(Unknown(existing), detected[..i])
        invariant stored == existing + kept
        invariant ledger == before + Map(RecordFor(id), kept)
      {
        TakeOne(detected, i, existing);
        if Unknown(existing)(detected[i]) {
          AppendBoth(before, existing, kept, detected[i], id);
          ledger := ledger + [Record(id, detected[i])];
          stored := stored + [detected[i]];
          kept := kept + [detected[i]];
        }
      }
      assert detected[..|detected|] == detected;
    }

    method ProposeRule(draft: Draft) returns (r: Result<Outcome, Error>)
      modifies this
      ensures (St(), r) == Propose(n, old(St()), draft)
      ensures old(Valid()) ==> Valid()
    {
      hide Inv;
      StepPreserves(n, St(), ProposeStep(draft));
      if SourceCategory(draft.sourceType) != Observation {
        return Failure(BadSource);
      }
      if Strip(draft.text) == "" {
        return Failure(EmptyText);
      }
      var rule := NewRule(|rules|, draft);
      rules := rules + [rule];
      var conflicts := DetectAndStoreConflicts(rule.id);
      r := Success(Outcome(rule, conflicts));
    }

    method ApproveRule(id: nat, decidedBy: string, overrideSoft: bool, now: int) returns (r: Result<Rule, Error>)
      modifies this
      ensures (St(), r) == Approve(n, old(St()), id, decidedBy, overrideSoft, now)
      ensures old(Valid()) ==> Valid()
    {
      hide Inv;
      StepPreserves(n, St(), ApproveStep(id, decidedBy, overrideSoft, now));
      if id >= |rules| {
        return Failure(NotFound);
      }
      if rules[id].status != Pending {
        return Failure(NotPending);
      }
      var conflicts := DetectAndStoreConflicts(id);
      var hard, soft := Count(IsHard, conflicts), Count(IsSoft, conflicts);
      if hard > 0 {
        return Failure(HardConflicts(hard));
      }
      if soft > 0 && !overrideSoft {
        return Failure(SoftConflicts(soft));
      }
      var rule := rules[id].(status := Active, decidedBy := Some(decidedBy), decidedAt := Some(now));
      rule := rule.(activatedAt := Some(now), expiresAt := Some(now + RULE_TTL));
      rules := rules[id := rule];
      r := Success(rule);
    }

    method RejectRule(id: nat, decidedBy: string, reason: Option<string>, now: int) returns (r: Result<Rule, Error>)
      modifies this
      ensures (St(), r) == Reject(old(St()), id, decidedBy, reason, now)
      ensures r.Success? <==> id < |old(rules)| && old(rules)[id].status == Pending
      ensures r.Success? ==> OnlyDecided(old(St()), St(), id, Rejected, decidedBy, now)
      ensures r.Failure? ==> St() == old(St())
      ensures old(Valid()) ==> Valid()
    {
      hide Inv;
      StepPreserves(n, St(), RejectStep(id, decidedBy, reason, now));
      if id >= |rules| {
        return Failure(NotFound);
      }
      if rules[id].status != Pending {
        return Failure(NotPending);
      }
      var rule := rules[id].(status := Rejected, decidedBy := Some(decidedBy), decidedAt := Some(now),
                             rejectionReason := reason);
      rules := rules[id := rule];
      r := Success(rule);
    }

    method RetireRule(id: nat, decidedBy: string, reason: Option<string>, now: int) returns (r: Result<Rule, Error>)
      modifies this
      ensures (St(), r) == Retire(old(St()), id, decidedBy, reason, now)
      ensures r.Success? <==> id < |old(rules)| && old(rules)[id].status in {Active, Pending}
      ensures r.Success? ==> OnlyDecided(old(St()), St(), id, Retired, decidedBy, now)
      ensures r.Failure? ==> St() == old(St())
      ensures old(Valid()) ==> Valid()
    {
      hide Inv;
      StepPreserves(n, St(), RetireStep(id, decidedBy, reason, now));
      if id >= |rules| {
        return Failure(NotFound);
      }
      var rule := rules[id];
      if rule.status != Active && rule.status != Pending {
        return Failure(NotRetirable(rule.status));
      }
      rule := rule.(status := Retired, decidedBy := Some(decidedBy), decidedAt := Some(now));
      if reason.Some? && reason.value != "" {
        rule := rule.(rejectionReason := reason);
      }
      rules := rules[id := rule];
      r := Success(rule);
    }

    /** The bulk update of the nightly cleanup. */
    method CleanUpExpired(now: int) returns (reReview: nat)
      modifies this`rules
      ensures St() == CleanUp(old(St()), now)
      ensures reReview == |set i | 0 <= i < |rules| && old(rules)[i].status == Active && rules[i].status != Active|
      ensures old(Valid()) ==> Valid()
    {
      hide Inv;
      StepPreserves(n, St(), CleanUpStep(now));
      reReview := Count(IsExpired(now), rules);
      CountIsPositions(IsExpired(now), rules);
      rules := Map(ReGate(now), rules);
      assert Positions(IsExpired(now), old(rules)) == set i | 0 <= i < |rules| && old(rules)[i].status == Active
          && rules[i].status != Active;
    }
  }

  lemma TakeOne(detected: seq<RuleConflict>, i: nat, existing: seq<RuleConflict>)
    requires i < |detected|
    ensures Filter(Unknown(existing), detected[..i + 1])
         == Filter(Unknown(existing), detected[..i]) + if Unknown(existing)(detected[i]) then [detected[i]] else []
  {
    assert detected[..i + 1] == detected[..i] + [detected[i]];
    FilterAppend(Unknown(existing), detected[..i], [detected[i]]);
  }

  lemma AppendBoth(ledger: seq<Record>, existing: seq<RuleConflict>, kept: seq<RuleConflict>, c: RuleConflict, id: nat)
    ensures ledger + Map(RecordFor(id), kept) + [Record(id, c)] == ledger + Map(RecordFor(id), kept + [c])
    ensures existing + kept + [c] == existing + (kept + [c])
  {
  }

  // ---------- the invariant ----------

  /** Two rules that would give opposite instructions on a shared trigger term. */
  predicate Clash(n: Normaliser, a: Rule, b: Rule) {
    DirectlyContradicts(n, SpecOf(a), SpecOf(b))
  }

  function ActiveIn(domain: string): Rule -> bool {
    (r: Rule) => r.status == Active && r.domain == domain
  }

  ghost predicate NoClash(n: Normaliser, rules: seq<Rule>) {
    forall i, j | 0 <= i < |rules| && 0 <= j < |rules| && i != j && rules[i].status == rules[j].status == Active ::
      !Clash(n, rules[i], rules[j])
  }

  ghost predicate WithinCaps(rules: seq<Rule>) {
    && Count(IsActive, rules) <= DEFAULT_CAPS.globalRules
    && forall domain: string :: Count(ActiveIn(domain), rules) <= DEFAULT_CAPS.domainRules
  }

  ghost predicate Numbered(rules: seq<Rule>) {
    forall i | 0 <= i < |rules| :: rules[i].id == i
  }

  ghost predicate LedgerSound(s: State) {
    forall rec | rec in s.ledger ::
      && rec.ruleId < |s.rules|
      && (rec.conflict.severity == Hard <==> rec.conflict.kind in {Direct, Cap})
      && (rec.conflict.severity == Hard ==> s.rules[rec.ruleId].status != Active)
  }

  ghost predicate Inv(n: Normaliser, s: State) {
    Numbered(s.rules) && NoClash(n, s.rules) && WithinCaps(s.rules) && LedgerSound(s)
  }

  /** Rules whose text and trigger stay, and of which none becomes active. */
  ghost predicate OnlyDeactivates(before: seq<Rule>, after: seq<Rule>) {
    && |after| == |before|
    && forall i | 0 <= i < |before| ::
         SpecOf(after[i]) == SpecOf(before[i]) && (after[i].status == Active ==> before[i].status == Active)
  }

  lemma DeactivationKeepsInv(n: Normaliser, s: State, rules: seq<Rule>)
    requires Inv(n, s) && OnlyDeactivates(s.rules, rules)
    ensures Inv(n, s.(rules := rules))
  {
    hide Clash, Count;
    forall i | 0 <= i < |rules|
      ensures rules[i].id == i
    {
      assert SpecOf(rules[i]).id == SpecOf(s.rules[i]).id == i;
    }
    assert NoClash(n, rules) by {
      SameSpecsClashAlike(n, s.rules, rules);
    }
    CountPointwise(IsActive, s.rules, rules);
    forall domain: string
      ensures Count(ActiveIn(domain), rules) <= DEFAULT_CAPS.domainRules
    {
      forall i | 0 <= i < |rules|
        ensures ActiveIn(domain)(rules[i]) ==> ActiveIn(domain)(s.rules[i])
      {
        assert SpecOf(rules[i]).domain == SpecOf(s.rules[i]).domain;
      }
      CountPointwise(ActiveIn(domain), s.rules, rules);
    }
  }

  lemma SameSpecsClashAlike(n: Normaliser, before: seq<Rule>, after: seq<Rule>)
    requires OnlyDeactivates(before, after)
    ensures forall i, j | 0 <= i < |after| && 0 <= j < |after| ::
        Clash(n, after[i], after[j]) == Clash(n, before[i], before[j])
  {
  }

  // ---------- detection against the invariant ----------

  lemma ActiveSpecMember(rules: seq<Rule>, except: nat, i: nat)
    requires i < |rules| && rules[i].status == Active && rules[i].id != except
    ensures SpecOf(rules[i]) in ActiveSpecs(rules, except)
  {
    FilterMember(ActiveOther(except), rules, rules[i]);
    var others := Filter(ActiveOther(except), rules);
    var k :| 0 <= k < |others| && others[k] == rules[i];
    assert ActiveSpecs(rules, except)[k] == SpecOf(rules[i]);
  }

  /** For a rule that is not active itself, detection looks at all active rules. */
  lemma ActiveSpecsInDomain(rules: seq<Rule>, id: nat, domain: string)
    requires id < |rules| && Numbered(rules) && rules[id].status != Active
    ensures ActiveSpecs(rules, id) == Map(SpecOf, Filter(IsActive, rules))
    ensures Filter(InDomain(domain), ActiveSpecs(rules, id)) == Map(SpecOf, Filter(ActiveIn(domain), rules))
  {
    forall r | r in rules
      ensures ActiveOther(id)(r) == IsActive(r)
    {
      var i :| 0 <= i < |rules| && rules[i] == r;
    }
    FilterCongruent(ActiveOther(id), IsActive, rules);
    var active := Filter(IsActive, rules);
    var inDomain := (r: Rule) => r.domain == domain;
    FilterMap(InDomain(domain), inDomain, SpecOf, active);
    FilterTwice(inDomain, IsActive, ActiveIn(domain), rules);
  }

  lemma ActiveSpecsCount(rules: seq<Rule>, id: nat, domain: string)
    requires id < |rules| && Numbered(rules) && rules[id].status != Active
    ensures |ActiveSpecs(rules, id)| == Count(IsActive, rules)
    ensures |Filter(InDomain(domain), ActiveSpecs(rules, id))| == Count(ActiveIn(domain), rules)
  {
    ActiveSpecsInDomain(rules, id, domain);
  }

  /** The active rule a spec was made from. */
  lemma ActiveSpecOf(rules: seq<Rule>, id: nat, spec: RuleSpec) returns (i: nat)
    requires spec in ActiveSpecs(rules, id)
    ensures i < |rules| && rules[i].status == Active && SpecOf(rules[i]) == spec
  {
    var others := Filter(ActiveOther(id), rules);
    var k :| 0 <= k < |others| && SpecOf(others[k]) == spec;
    FilterMember(ActiveOther(id), rules, others[k]);
    i :| 0 <= i < |rules| && rules[i] == others[k];
  }

  lemma StoredMember(ledger: seq<Record>, id: nat, c: RuleConflict)
    ensures c in StoredConflicts(ledger, id) <==> Record(id, c) in ledger
  {
    var own := Filter(OfRule(id), ledger);
    FilterMember(OfRule(id), ledger, Record(id, c));
    if c in StoredConflicts(ledger, id) {
      var k :| 0 <= k < |own| && ConflictOf(own[k]) == c;
      FilterMember(OfRule(id), ledger, own[k]);
      assert own[k] == Record(id, c);
    }
    if Record(id, c) in own {
      var k :| 0 <= k < |own| && own[k] == Record(id, c);
      assert StoredConflicts(ledger, id)[k] == c;
    }
  }

  lemma KnownKey(existing: seq<RuleConflict>, c: RuleConflict)
    ensures !Unknown(existing)(c) <==> exists e :: e in existing && KeyOf(e) == KeyOf(c)
  {
  }

  /** Nothing detected is lost: a detected conflict is among those handed back, added or from the ledger. */
  lemma HardIsReported(n: Normaliser, s: State, id: nat)
    requires id < |s.rules| && LedgerSound(s)
    ensures Count(IsHard, AllConflicts(n, s, id)) > 0 <==>
            || HasHardConflict(Detected(n, s, id))
            || HasHardRecord(s.ledger, id)
  {
    hide Detected, Count, StoredConflicts;
    var existing, detected := StoredConflicts(s.ledger, id), Detected(n, s, id);
    CountPositive(IsHard, AllConflicts(n, s, id));
    if c :| c in detected && IsHard(c) {
      FilterMember(Unknown(existing), detected, c);
      if !Unknown(existing)(c) {
        KnownKey(existing, c);
        var e :| e in existing && KeyOf(e) == KeyOf(c);
        StoredMember(s.ledger, id, e);
        DetectedSeverity(n, s, id, c);
        assert IsHard(e) && e in AllConflicts(n, s, id);
      } else {
        assert c in AllConflicts(n, s, id);
      }
    }
    if rec :| rec in s.ledger && rec.ruleId == id && IsHard(rec.conflict) {
      StoredMember(s.ledger, id, rec.conflict);
      assert rec == Record(id, rec.conflict) && rec.conflict in AllConflicts(n, s, id);
    }
    if c :| c in AllConflicts(n, s, id) && IsHard(c) {
      if c in existing {
        StoredMember(s.ledger, id, c);
      } else {
        FilterMember(Unknown(existing), detected, c);
      }
    }
  }

  lemma DetectedSeverity(n: Normaliser, s: State, id: nat, c: RuleConflict)
    requires id < |s.rules| && c in Detected(n, s, id)
    ensures IsHard(c) <==> c.kind in {Direct, Cap}
  {
    hide DetectConflicts;
    SeverityByKind(n, SpecOf(s.rules[id]), ActiveSpecs(s.rules, id), DEFAULT_CAPS, c);
  }

  lemma FreshMember(n: Normaliser, s: State, id: nat, rec: Record)
    requires id < |s.rules| && rec in Map(RecordFor(id), Fresh(n, s, id))
    ensures rec.ruleId == id && rec.conflict in Detected(n, s, id)
  {
    hide Detected, StoredConflicts;
    var added := Fresh(n, s, id);
    var k :| 0 <= k < |added| && RecordFor(id)(added[k]) == rec;
    FilterMember(Unknown(StoredConflicts(s.ledger, id)), Detected(n, s, id), added[k]);
  }

  lemma DetectionKeepsInv(n: Normaliser, s: State, id: nat)
    requires id < |s.rules| && Inv(n, s) && s.rules[id].status != Active
    ensures Inv(n, DetectAndStore(n, s, id))
  {
    hide NoClash, WithinCaps, Fresh, Detected;
    var s1 := DetectAndStore(n, s, id);
    forall rec | rec in s1.ledger
      ensures rec.ruleId < |s.rules|
      ensures rec.conflict.severity == Hard <==> rec.conflict.kind in {Direct, Cap}
      ensures rec.conflict.severity == Hard ==> s.rules[rec.ruleId].status != Active
    {
      if rec !in s.ledger {
        FreshMember(n, s, id, rec);
        DetectedSeverity(n, s, id, rec.conflict);
      }
    }
  }

  /** Asking again adds nothing to the ledger, at any later state in which the rule itself and the set of active
      rules it is compared with are the same; whatever else has happened to other rules and to the ledger. */
  lemma RedetectionAddsNothing(n: Normaliser, s: State, later: State, id: nat)
    requires id < |s.rules| && id < |later.rules| && SpecOf(later.rules[id]) == SpecOf(s.rules[id])
    requires ActiveSpecs(later.rules, id) == ActiveSpecs(s.rules, id)
    requires DetectAndStore(n, s, id).ledger <= later.ledger
    ensures DetectAndStore(n, later, id) == later && AllConflicts(n, later, id) == StoredConflicts(later.ledger, id)
  {
    var known := StoredConflicts(later.ledger, id);
    assert Detected(n, later, id) == Detected(n, s, id) by {
      hide DetectConflicts;
    }
    hide Detected, StoredConflicts;
    var detected := Detected(n, s, id);
    forall c | c in detected
      ensures !Unknown(known)(c)
    {
      StaysKnown(n, s, later.ledger, id, c);
    }
    FilterNone(Unknown(known), detected);
    assert later.ledger + [] == later.ledger && known + [] == known;
  }

  /** What detection found once is on record ever after. */
  lemma StaysKnown(n: Normaliser, s: State, ledger: seq<Record>, id: nat, c: RuleConflict)
    requires id < |s.rules| && c in Detected(n, s, id) && DetectAndStore(n, s, id).ledger <= ledger
    ensures !Unknown(StoredConflicts(ledger, id))(c)
  {
    hide Detected, StoredConflicts;
    var existing, detected, added := StoredConflicts(s.ledger, id), Detected(n, s, id), Fresh(n, s, id);
    var stored := DetectAndStore(n, s, id).ledger;
    KnownKey(existing, c);
    KnownKey(StoredConflicts(ledger, id), c);
    FilterMember(Unknown(existing), detected, c);
    if c in added {
      var k :| 0 <= k < |added| && added[k] == c;
      assert Map(RecordFor(id), added)[k] == Record(id, c);
      assert Record(id, c) in stored;
      StoredMember(ledger, id, c);
    } else {
      var e :| e in existing && KeyOf(e) == KeyOf(c);
      StoredMember(s.ledger, id, e);
      assert Record(id, e) in stored;
      StoredMember(ledger, id, e);
    }
  }

  // ---------- activation ----------

  ghost predicate HasSoftRecord(ledger: seq<Record>, id: nat) {
    exists rec :: rec in ledger && rec.ruleId == id && IsSoft(rec.conflict)
  }

  ghost predicate HasSoftConflict(conflicts: seq<RuleConflict>) {
    exists c :: c in conflicts && IsSoft(c)
  }

  /** The same for soft conflicts. */
  lemma SoftIsReported(n: Normaliser, s: State, id: nat)
    requires id < |s.rules| && LedgerSound(s)
    ensures Count(IsSoft, AllConflicts(n, s, id)) > 0 <==>
            || HasSoftConflict(Detected(n, s, id))
            || HasSoftRecord(s.ledger, id)
  {
    hide Detected, Count, StoredConflicts;
    var existing, detected := StoredConflicts(s.ledger, id), Detected(n, s, id);
    CountPositive(IsSoft, AllConflicts(n, s, id));
    if c :| c in detected && IsSoft(c) {
      FilterMember(Unknown(existing), detected, c);
      if !Unknown(existing)(c) {
        KnownKey(existing, c);
        var e :| e in existing && KeyOf(e) == KeyOf(c);
        StoredMember(s.ledger, id, e);
        DetectedSeverity(n, s, id, c);
        assert IsSoft(e) && e in AllConflicts(n, s, id);
      } else {
        assert c in AllConflicts(n, s, id);
      }
    }
    if rec :| rec in s.ledger && rec.ruleId == id && IsSoft(rec.conflict) {
      StoredMember(s.ledger, id, rec.conflict);
      assert rec == Record(id, rec.conflict) && rec.conflict in AllConflicts(n, s, id);
    }
    if c :| c in AllConflicts(n, s, id) && IsSoft(c) {
      if c in existing {
        StoredMember(s.ledger, id, c);
      } else {
        FilterMember(Unknown(existing), detected, c);
      }
    }
  }

  function CostOf(r: Rule): int {
    r.artifactCost
  }

  /** Artifacts of the active rules of a domain. */
  function Artifacts(rules: seq<Rule>, domain: string): int {
    Sum(Map(CostOf, Filter(ActiveIn(domain), rules)))
  }

  predicate Overlap(n: Normaliser, a: Rule, b: Rule) {
    TriggersOverlap(n, a.keywords, b.keywords)
  }

  lemma ActiveSpecsArtifacts(rules: seq<Rule>, id: nat, domain: string)
    requires id < |rules| && Numbered(rules) && rules[id].status != Active
    ensures Sum(Map(ArtifactCost, Filter(InDomain(domain), ActiveSpecs(rules, id)))) == Artifacts(rules, domain)
  {
    hide Sum;
    ActiveSpecsInDomain(rules, id, domain);
    var active := Filter(ActiveIn(domain), rules);
    assert Map(ArtifactCost, Map(SpecOf, active)) == Map(CostOf, active);
  }

  /** A soft conflict is detected exactly when an active rule has an overlapping trigger without contradicting, or the
      domain's artifact budget is exceeded. */
  lemma DetectedSoftIff(n: Normaliser, s: State, id: nat)
    requires id < |s.rules| && Numbered(s.rules) && s.rules[id].status == Pending
    ensures
      var rule := s.rules[id];
      HasSoftConflict(Detected(n, s, id)) <==>
        || (exists i :: 0 <= i < |s.rules| && s.rules[i].status == Active
                        && Overlap(n, rule, s.rules[i]) && !Clash(n, rule, s.rules[i]))
        || Artifacts(s.rules, rule.domain) + rule.artifactCost > DEFAULT_CAPS.domainArtifacts
  {
    hide TriggersOverlap, OppositeEffects, DetectConflicts, HasSoftConflict, Artifacts, ActiveSpecs;
    var rule, active := s.rules[id], ActiveSpecs(s.rules, id);
    SoftConflictIff(n, SpecOf(rule), active, DEFAULT_CAPS);
    ActiveSpecsArtifacts(s.rules, id, rule.domain);
    if i :| 0 <= i < |s.rules| && s.rules[i].status == Active
            && Overlap(n, rule, s.rules[i]) && !Clash(n, rule, s.rules[i]) {
      ActiveSpecMember(s.rules, id, i);
      assert SoftlyMeets(n, SpecOf(rule), SpecOf(s.rules[i]));
    }
    if spec :| spec in active && SoftlyMeets(n, SpecOf(rule), spec) {
      var i := ActiveSpecOf(s.rules, id, spec);
      assert Overlap(n, rule, s.rules[i]) && !Clash(n, rule, s.rules[i]);
    }
  }

  predicate SoftlyMeets(n: Normaliser, a: RuleSpec, b: RuleSpec) {
    TriggersOverlap(n, a.keywords, b.keywords) && !DirectlyContradicts(n, a, b)
  }

  lemma SoftCapsIff(proposed: RuleSpec, active: seq<RuleSpec>, caps: Caps)
    ensures
      var artifacts := Sum(Map(ArtifactCost, Filter(InDomain(proposed.domain), active))) + proposed.artifactCost;
      HasSoftConflict(CapConflicts(proposed, active, caps)) <==> artifacts > caps.domainArtifacts
  {
    hide Sum, Map, Filter;
    var capped := CapConflicts(proposed, active, caps);
    var artifacts := Sum(Map(ArtifactCost, Filter(InDomain(proposed.domain), active))) + proposed.artifactCost;
    if artifacts > caps.domainArtifacts {
      var c := capped[|capped| - 1];
      assert c in capped && IsSoft(c);
    }
  }

  lemma SoftChecksIff(n: Normaliser, proposed: RuleSpec, active: seq<RuleSpec>)
    ensures HasSoftConflict(FlatMap(CheckAgainst(n, proposed), active))
            <==> exists r :: r in active && SoftlyMeets(n, proposed, r)
  {
    hide TriggersOverlap, OppositeEffects, FlatMap;
    var check := CheckAgainst(n, proposed);
    var conflicts := FlatMap(check, active);
    if r :| r in active && SoftlyMeets(n, proposed, r) {
      var c := check(r)[0];
      assert c in check(r);
      FlatMapMember(check, active, c);
      assert c in conflicts && IsSoft(c);
    }
    if c :| c in conflicts && IsSoft(c) {
      FlatMapMember(check, active, c);
      var r :| r in active && c in check(r);
      assert SoftlyMeets(n, proposed, r);
    }
  }

  lemma SoftInEither(a: seq<RuleConflict>, b: seq<RuleConflict>)
    ensures HasSoftConflict(a + b) <==> HasSoftConflict(a) || HasSoftConflict(b)
  {
    if c :| c in a && IsSoft(c) {
      assert c in a + b;
    }
    if c :| c in b && IsSoft(c) {
      assert c in a + b;
    }
  }

  lemma SoftConflictIff(n: Normaliser, proposed: RuleSpec, active: seq<RuleSpec>, caps: Caps)
    ensures
      var artifacts := Sum(Map(ArtifactCost, Filter(InDomain(proposed.domain), active))) + proposed.artifactCost;
      HasSoftConflict(DetectConflicts(n, proposed, active, caps)) <==>
        (exists r :: r in active && SoftlyMeets(n, proposed, r)) || artifacts > caps.domainArtifacts
  {
    hide SoftlyMeets, HasSoftConflict, CapConflicts, FlatMap, Sum, Map, Filter;
    SoftChecksIff(n, proposed, active);
    SoftCapsIff(proposed, active, caps);
    SoftInEither(FlatMap(CheckAgainst(n, proposed), active), CapConflicts(proposed, active, caps));
  }

  /** No soft conflict on record, no active rule with an overlapping trigger, and artifacts within the domain's
      budget. */
  ghost predicate NothingSoft(n: Normaliser, s: State, rule: Rule) {
    && !HasSoftRecord(s.ledger, rule.id)
    && !(exists i :: 0 <= i < |s.rules| && s.rules[i].status == Active && Overlap(n, rule, s.rules[i]))
    && Artifacts(s.rules, rule.domain) + rule.artifactCost <= DEFAULT_CAPS.domainArtifacts
  }

  /** A pending rule may become active exactly when its record is clean, it contradicts no active rule and neither its
      domain nor the table is full; and, without the override, when no soft conflict is on record either, no active rule
      has an overlapping trigger, and its artifacts fit the domain's budget. */
  lemma ApproveIff(n: Normaliser, s: State, id: nat, decidedBy: string, overrideSoft: bool, now: int)
    requires Inv(n, s)
    ensures Approve(n, s, id, decidedBy, overrideSoft, now).1.Success? <==>
            && id < |s.rules| && s.rules[id].status == Pending
            && !HasHardRecord(s.ledger, id)
            && !(exists i :: 0 <= i < |s.rules| && s.rules[i].status == Active && Clash(n, s.rules[id], s.rules[i]))
            && Count(ActiveIn(s.rules[id].domain), s.rules) < DEFAULT_CAPS.domainRules
            && Count(IsActive, s.rules) < DEFAULT_CAPS.globalRules
            && (overrideSoft || NothingSoft(n, s, s.rules[id]))
  {
    if id < |s.rules| && s.rules[id].status == Pending {
      hide Inv, NoClash, WithinCaps, AllConflicts, Count, Artifacts, HasSoftRecord, HasHardRecord, HasSoftConflict;
      hide HasHardConflict, Detected;
      assert LedgerSound(s) && Numbered(s.rules) by {
        InvParts(n, s);
      }
      HardIsReported(n, s, id);
      DetectedHardIff(n, s, id);
      SoftIsReported(n, s, id);
      DetectedSoftIff(n, s, id);
      ClashOverlaps(n, s.rules, s.rules[id]);
    }
  }

  lemma ClashOverlaps(n: Normaliser, rules: seq<Rule>, rule: Rule)
    ensures forall i | 0 <= i < |rules| :: Clash(n, rule, rules[i]) ==> Overlap(n, rule, rules[i])
  {
    hide TriggersOverlap, OppositeEffects;
  }

  lemma InvParts(n: Normaliser, s: State)
    requires Inv(n, s)
    ensures LedgerSound(s) && Numbered(s.rules)
  {
  }

  lemma DetectedHardIff(n: Normaliser, s: State, id: nat)
    requires id < |s.rules| && Numbered(s.rules) && s.rules[id].status == Pending
    ensures HasHardConflict(Detected(n, s, id)) <==>
            || (exists i :: 0 <= i < |s.rules| && s.rules[i].status == Active && Clash(n, s.rules[id], s.rules[i]))
            || Count(ActiveIn(s.rules[id].domain), s.rules) >= DEFAULT_CAPS.domainRules
            || Count(IsActive, s.rules) >= DEFAULT_CAPS.globalRules
  {
    hide DirectlyContradicts, DetectConflicts, HasHardConflict, Count;
    var rule, active := s.rules[id], ActiveSpecs(s.rules, id);
    HardConflictIff(n, SpecOf(rule), active, DEFAULT_CAPS);
    ActiveSpecsCount(s.rules, id, rule.domain);
    if i :| 0 <= i < |s.rules| && s.rules[i].status == Active && Clash(n, rule, s.rules[i]) {
      ActiveSpecMember(s.rules, id, i);
    }
    if spec :| spec in active && DirectlyContradicts(n, SpecOf(rule), spec) {
      var i := ActiveSpecOf(s.rules, id, spec);
      assert Clash(n, rule, s.rules[i]);
    }
  }

  lemma ActivationKeepsInv(n: Normaliser, s: State, id: nat, decidedBy: string, now: int)
    requires Inv(n, s) && id < |s.rules| && s.rules[id].status == Pending
    requires !HasHardRecord(s.ledger, id)
    requires !(exists i :: 0 <= i < |s.rules| && s.rules[i].status == Active && Clash(n, s.rules[id], s.rules[i]))
    requires Count(ActiveIn(s.rules[id].domain), s.rules) < DEFAULT_CAPS.domainRules
    requires Count(IsActive, s.rules) < DEFAULT_CAPS.globalRules
    ensures Inv(n, s.(rules := s.rules[id := Activated(s.rules[id], decidedBy, now)]))
  {
    hide Count, Clash;
    var rule := Activated(s.rules[id], decidedBy, now);
    var rules := s.rules[id := rule];
    ActivationKeepsNoClash(n, s.rules, id, rule);
    CountUpdate(IsActive, s.rules, id, rule);
    forall domain: string
      ensures Count(ActiveIn(domain), rules) <= DEFAULT_CAPS.domainRules
    {
      CountUpdate(ActiveIn(domain), s.rules, id, rule);
    }
    forall rec | rec in s.ledger
      ensures rec.conflict.severity == Hard ==> rules[rec.ruleId].status != Active
    {
    }
  }

  lemma ActivationKeepsNoClash(n: Normaliser, rules: seq<Rule>, id: nat, rule: Rule)
    requires id < |rules| && NoClash(n, rules) && SpecOf(rule) == SpecOf(rules[id])
    requires !(exists i :: 0 <= i < |rules| && rules[i].status == Active && Clash(n, rules[id], rules[i]))
    ensures NoClash(n, rules[id := rule])
  {
    hide DirectlyContradicts;
    forall i | 0 <= i < |rules| && rules[i].status == Active
      ensures !Clash(n, rule, rules[i]) && !Clash(n, rules[i], rule)
    {
      assert !Clash(n, rules[id], rules[i]);
      ContradictionIsSymmetric(n, SpecOf(rule), SpecOf(rules[i]));
    }
  }

  // ---------- every step keeps the invariant ----------

  lemma ProposeKeepsInv(n: Normaliser, s: State, d: Draft)
    requires Inv(n, s)
    ensures Inv(n, Propose(n, s, d).0)
  {
    hide Inv, DetectAndStore, AllConflicts;
    if Propose(n, s, d).1.Success? {
      var rule := NewRule(|s.rules|, d);
      AdditionKeepsInv(n, s, rule);
      DetectionKeepsInv(n, s.(rules := s.rules + [rule]), rule.id);
    }
  }

  lemma AdditionKeepsInv(n: Normaliser, s: State, rule: Rule)
    requires Inv(n, s) && rule.id == |s.rules| && rule.status == Pending
    ensures Inv(n, s.(rules := s.rules + [rule]))
  {
    hide Clash, Count;
    var rules := s.rules + [rule];
    CountSnoc(IsActive, s.rules, rule);
    forall domain: string
      ensures Count(ActiveIn(domain), rules) <= DEFAULT_CAPS.domainRules
    {
      CountSnoc(ActiveIn(domain), s.rules, rule);
    }
  }

  lemma ApproveKeepsInv(n: Normaliser, s: State, id: nat, decidedBy: string, overrideSoft: bool, now: int)
    requires Inv(n, s)
    ensures Inv(n, Approve(n, s, id, decidedBy, overrideSoft, now).0)
  {
    if id < |s.rules| && s.rules[id].status == Pending {
      ApproveIff(n, s, id, decidedBy, overrideSoft, now);
      DetectionKeepsInv(n, s, id);
      if Approve(n, s, id, decidedBy, overrideSoft, now).1.Success? {
        hide Inv, AllConflicts, Fresh, Detected, Clash;
        var s1 := DetectAndStore(n, s, id);
        assert LedgerSound(s) by {
          InvParts(n, s);
        }
        CleanStaysClean(n, s, id);
        ActivationKeepsInv(n, s1, id, decidedBy, now);
      }
    }
  }

  /** When no hard conflict is reported, none is in the ledger afterwards either. */
  lemma CleanStaysClean(n: Normaliser, s: State, id: nat)
    requires id < |s.rules| && LedgerSound(s) && Count(IsHard, AllConflicts(n, s, id)) == 0
    ensures !HasHardRecord(DetectAndStore(n, s, id).ledger, id)
  {
    hide Detected, Fresh, Count, AllConflicts;
    HardIsReported(n, s, id);
    forall rec | rec in DetectAndStore(n, s, id).ledger && rec.ruleId == id
      ensures !IsHard(rec.conflict)
    {
      if rec !in s.ledger {
        FreshMember(n, s, id, rec);
      }
    }
  }

  lemma StepKeepsInv(n: Normaliser, s: State, step: Step)
    requires Inv(n, s)
    ensures Inv(n, Apply(n, s, step))
  {
    hide Inv, Propose, Approve;
    match step
    case ProposeStep(draft) => ProposeKeepsInv(n, s, draft);
    case ApproveStep(id, who, overrideSoft, now) => ApproveKeepsInv(n, s, id, who, overrideSoft, now);
    case RejectStep(id, who, reason, now) => DeactivationKeepsInv(n, s, Apply(n, s, step).rules);
    case RetireStep(id, who, reason, now) => DeactivationKeepsInv(n, s, Apply(n, s, step).rules);
    case CleanUpStep(now) => DeactivationKeepsInv(n, s, Apply(n, s, step).rules);
  }

  lemma StepPreserves(n: Normaliser, s: State, step: Step)
    ensures Inv(n, s) ==> Inv(n, Apply(n, s, step))
  {
    hide Inv, Apply;
    if Inv(n, s) {
      StepKeepsInv(n, s, step);
    }
  }

  lemma {:induction false} RunKeepsInv(n: Normaliser, s: State, steps: seq<Step>)
    requires Inv(n, s)
    ensures Inv(n, Run(n, s, steps))
    decreases |steps|
  {
    hide Inv, Apply;
    if steps == [] {
    } else {
      StepKeepsInv(n, s, steps[0]);
      RunKeepsInv(n, Apply(n, s, steps[0]), steps[1..]);
    }
  }

  // ---------- main results ----------

  /** In every reachable state no two active rules contradict each other, no domain has more than five
      active rules and the user has at most twenty. */
  lemma ActiveRulesAreSafe(n: Normaliser, steps: seq<Step>)
    ensures
      var rules := Run(n, EMPTY, steps).rules;
      && (forall i, j | 0 <= i < |rules| && 0 <= j < |rules| && i != j
          && rules[i].status == rules[j].status == Active ::
            !Clash(n, rules[i], rules[j]))
      && Count(IsActive, rules) <= 20
      && forall domain: string :: Count(ActiveIn(domain), rules) <= 5
  {
    hide Run, Clash;
    assert Inv(n, EMPTY);
    RunKeepsInv(n, EMPTY, steps);
  }

  lemma {:induction false} LedgerGrows(n: Normaliser, s: State, steps: seq<Step>)
    ensures s.ledger <= Run(n, s, steps).ledger && |s.rules| <= |Run(n, s, steps).rules|
    decreases |steps|
  {
    hide Fresh, AllConflicts;
    if steps == [] {
    } else {
      LedgerGrows(n, Apply(n, s, steps[0]), steps[1..]);
    }
  }

  /** Once a hard conflict is on record for a rule, that rule is active in no later state. */
  lemma HardConflictBlocksForever(n: Normaliser, before: seq<Step>, after: seq<Step>, rec: Record)
    requires rec in Run(n, EMPTY, before).ledger && rec.conflict.severity == Hard
    ensures
      var s := Run(n, Run(n, EMPTY, before), after);
      rec.ruleId < |s.rules| && s.rules[rec.ruleId].status != Active
  {
    hide Run, NoClash, WithinCaps, Numbered;
    var s0 := Run(n, EMPTY, before);
    assert Inv(n, EMPTY) by {
      EmptyInv(n);
    }
    RunKeepsInv(n, EMPTY, before);
    RunKeepsInv(n, s0, after);
    LedgerGrows(n, s0, after);
    assert rec in Run(n, s0, after).ledger;
  }

  lemma EmptyInv(n: Normaliser)
    ensures Inv(n, EMPTY)
  {
  }

  ghost predicate Dated(rules: seq<Rule>) {
    forall i | 0 <= i < |rules| && rules[i].status == Active ::
      rules[i].activatedAt.Some? && rules[i].expiresAt == Some(rules[i].activatedAt.value + RULE_TTL)
  }

  lemma {:induction false} RunKeepsDates(n: Normaliser, s: State, steps: seq<Step>)
    requires Dated(s.rules)
    ensures Dated(Run(n, s, steps).rules)
    decreases |steps|
  {
    hide AllConflicts, Fresh, Count;
    if steps == [] {
    } else {
      RunKeepsDates(n, Apply(n, s, steps[0]), steps[1..]);
    }
  }

  /** After a cleanup every active rule was approved less than thirty days ago. */
  lemma CleanUpReGates(n: Normaliser, steps: seq<Step>, now: int)
    ensures forall r | r in CleanUp(Run(n, EMPTY, steps), now).rules && r.status == Active ::
              r.activatedAt.Some? && now < r.activatedAt.value + RULE_TTL
  {
    hide Run;
    RunKeepsDates(n, EMPTY, steps);
  }
}
