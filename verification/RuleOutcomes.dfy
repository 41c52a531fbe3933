/** What each step in the life of a rule leaves behind, in terms of the rules' own fields. */
module RuleOutcomes {
  import opened Prelude
  import opened Text
  import opened Rules
  import opened RuleService

  // ---------- what two rules have in common ----------

  /** Some keyword of one and some keyword of the other have a term in common. */
  ghost predicate ShareTerm(n: Normaliser, a: seq<string>, b: seq<string>) {
    exists k, l, t :: k in a && l in b && t in n.terms(k) && t in n.terms(l)
  }

  /** Both name an action, the actions have the same stem, and the polarities differ. */
  predicate Opposed(n: Normaliser, a: Effect, b: Effect) {
    a.action.Some? && b.action.Some? && n.stem(a.action.value) == n.stem(b.action.value) && a.polarity != b.polarity
  }

  lemma OverlapIff(n: Normaliser, a: seq<string>, b: seq<string>)
    ensures TriggersOverlap(n, a, b) <==> ShareTerm(n, a, b)
  {
    if t :| t in TriggerTerms(n, a) * TriggerTerms(n, b) {
      var k :| k in a && t in n.terms(k);
      var l :| l in b && t in n.terms(l);
    }
    if k, l, t :| k in a && l in b && t in n.terms(k) && t in n.terms(l) {
      assert t in TriggerTerms(n, a) * TriggerTerms(n, b);
    }
  }

  /** Two rules clash exactly when they share a trigger term and prescribe the same action the opposite way. */
  lemma ClashIff(n: Normaliser, a: Rule, b: Rule)
    ensures Clash(n, a, b) <==> ShareTerm(n, a.keywords, b.keywords) && Opposed(n, a.effect, b.effect)
  {
    OverlapIff(n, a.keywords, b.keywords);
  }

  // ---------- detection ----------

  /** The conflict reported for a rule that shares a trigger term with the active rule `other`. */
  ghost predicate MeetsActive(n: Normaliser, rule: Rule, other: Rule, c: RuleConflict) {
    && other.status == Active && other.id != rule.id && ShareTerm(n, rule.keywords, other.keywords)
    && c == (if Opposed(n, rule.effect, other.effect)
             then RuleConflict(Direct, Hard, Contradicts(other.id, n.stem(other.effect.action.value)), Some(other.id))
             else RuleConflict(Interaction, Soft, Overlaps(other.id), Some(other.id)))
  }

  function SumArtifacts(rules: seq<Rule>, domain: string): int {
    if rules == [] then 0
    else SumArtifacts(rules[..|rules| - 1], domain)
         + var last := rules[|rules| - 1]; if last.status == Active && last.domain == domain then last.artifactCost
             else 0
  }

  /** The conflicts of a full domain, a full table and a used-up budget. */
  ghost predicate MeetsCap(rules: seq<Rule>, rule: Rule, c: RuleConflict) {
    var same, all := Count(ActiveIn(rule.domain), rules), Count(IsActive, rules);
    var artifacts := SumArtifacts(rules, rule.domain) + rule.artifactCost;
    || (same >= 5 && c == RuleConflict(Cap, Hard, DomainFull(rule.domain, same, 5), None))
    || (all >= 20 && c == RuleConflict(Cap, Hard, AllFull(all, 20), None))
    || (artifacts > 10 && c == RuleConflict(Budget, Soft, TooManyArtifacts(rule.domain, artifacts, 10), None))
  }

  lemma {:induction false} ArtifactsAre(rules: seq<Rule>, domain: string)
    ensures SumArtifacts(rules, domain) == Sum(Map(CostOf, Filter(ActiveIn(domain), rules)))
  {
    if rules == [] {
    } else {
      var front, last := rules[..|rules| - 1], rules[|rules| - 1];
      ArtifactsAre(front, domain);
      assert rules == front + [last];
      FilterAppend(ActiveIn(domain), front, [last]);
      assert Filter(ActiveIn(domain), [last]) == if ActiveIn(domain)(last) then [last] else [] by {
        assert [last][1..] == [];
      }
      SumMapSnoc(CostOf, Filter(ActiveIn(domain), front), last);
      assert Filter(ActiveIn(domain), front) + [] == Filter(ActiveIn(domain), front);
    }
  }

  lemma AgainstActive(n: Normaliser, rules: seq<Rule>, id: nat, c: RuleConflict)
    requires id < |rules| && Numbered(rules)
    ensures c in FlatMap(CheckAgainst(n, SpecOf(rules[id])), ActiveSpecs(rules, id)) <==>
              exists i :: 0 <= i < |rules| && MeetsActive(n, rules[id], rules[i], c)
  {
    hide TriggersOverlap, OppositeEffects, ActiveSpecs, ShareTerm;
    var check := CheckAgainst(n, SpecOf(rules[id]));
    FlatMapMember(check, ActiveSpecs(rules, id), c);
    if i :| 0 <= i < |rules| && MeetsActive(n, rules[id], rules[i], c) {
      ActiveSpecMember(rules, id, i);
      CheckedSo(n, rules[id], rules[i], c);
      assert c in check(SpecOf(rules[i]));
    }
    if spec :| spec in ActiveSpecs(rules, id) && c in check(spec) {
      var i := ActiveSpecOther(rules, id, spec);
      CheckedSo(n, rules[id], rules[i], c);
    }
  }

  lemma ActiveSpecOther(rules: seq<Rule>, id: nat, spec: RuleSpec) returns (i: nat)
    requires spec in ActiveSpecs(rules, id)
    ensures i < |rules| && rules[i].status == Active && SpecOf(rules[i]) == spec && rules[i].id != id
  {
    var others := Filter(ActiveOther(id), rules);
    var k :| 0 <= k < |others| && SpecOf(others[k]) == spec;
    FilterMember(ActiveOther(id), rules, others[k]);
    i :| 0 <= i < |rules| && rules[i] == others[k];
  }

  lemma CheckedSo(n: Normaliser, rule: Rule, other: Rule, c: RuleConflict)
    requires other.status == Active && other.id != rule.id
    ensures c in CheckAgainst(n, SpecOf(rule))(SpecOf(other)) <==> MeetsActive(n, rule, other, c)
  {
    hide ShareTerm, TriggersOverlap;
    OverlapIff(n, rule.keywords, other.keywords);
  }

  lemma AgainstCaps(rules: seq<Rule>, id: nat, c: RuleConflict)
    requires id < |rules| && Numbered(rules) && rules[id].status != Active
    ensures c in CapConflicts(SpecOf(rules[id]), ActiveSpecs(rules, id), DEFAULT_CAPS)
        <==> MeetsCap(rules, rules[id], c)
  {
    hide Sum, Map, Filter, ActiveSpecs, SumArtifacts, Artifacts;
    var rule := rules[id];
    ActiveSpecsCount(rules, id, rule.domain);
    ActiveSpecsArtifacts(rules, id, rule.domain);
    ArtifactsAre(rules, rule.domain);
    ArtifactsSpelled(rules, rule.domain);
  }

  lemma ArtifactsSpelled(rules: seq<Rule>, domain: string)
    ensures Artifacts(rules, domain) == Sum(Map(CostOf, Filter(ActiveIn(domain), rules)))
  {
  }

  /** For a rule that is not active, detection reports exactly: each active rule that shares a trigger term, as a
      hard contradiction when the effects are opposed and as a soft interaction otherwise; a full domain; a full
      table; and an exceeded artifact budget. */
  lemma DetectedIff(n: Normaliser, s: State, id: nat, c: RuleConflict)
    requires id < |s.rules| && Numbered(s.rules) && s.rules[id].status != Active
    ensures c in Detected(n, s, id) <==>
              || (exists i :: 0 <= i < |s.rules| && MeetsActive(n, s.rules[id], s.rules[i], c))
              || MeetsCap(s.rules, s.rules[id], c)
  {
    hide MeetsActive, MeetsCap, CheckAgainst, FlatMap, CapConflicts, ActiveSpecs;
    AgainstActive(n, s.rules, id, c);
    AgainstCaps(s.rules, id, c);
  }

  /** Detection only adds to the ledger, behind what it holds, and only conflicts of this rule: those detected that the
      ledger does not hold for it yet, by kind, other rule and message. It hands back those of the ledger and those
      added. */
  lemma LedgerAfterDetection(n: Normaliser, s: State, id: nat, rec: Record)
    requires id < |s.rules|
    ensures
      var after := DetectAndStore(n, s, id);
      && after.rules == s.rules && s.ledger <= after.ledger
      && (rec in after.ledger <==>
            || rec in s.ledger
            || (rec.ruleId == id && rec.conflict in Detected(n, s, id) && !Recorded(s.ledger, id, rec.conflict)))
      && (rec.ruleId == id ==> (rec.conflict in AllConflicts(n, s, id) <==> rec in after.ledger))
  {
    hide Detected;
    var stored, unseen := StoredConflicts(s.ledger, id), Fresh(n, s, id);
    FilterMember(Unknown(stored), Detected(n, s, id), rec.conflict);
    RecordedIff(s.ledger, id, rec.conflict);
    StoredMember(s.ledger, id, rec.conflict);
    var added := Map(RecordFor(id), unseen);
    if rec in added {
      var k :| 0 <= k < |added| && added[k] == rec;
      assert unseen[k] in unseen;
    }
    if rec.ruleId == id && rec.conflict in unseen {
      var k :| 0 <= k < |unseen| && unseen[k] == rec.conflict;
      assert added[k] == rec;
    }
  }

  ghost predicate Recorded(ledger: seq<Record>, id: nat, c: RuleConflict) {
    exists rec :: rec in ledger && rec.ruleId == id
                  && rec.conflict.kind == c.kind && rec.conflict.other == c.other && rec.conflict.detail == c.detail
  }

  lemma RecordedIff(ledger: seq<Record>, id: nat, c: RuleConflict)
    ensures Recorded(ledger, id, c) <==> !Unknown(StoredConflicts(ledger, id))(c)
  {
    hide StoredConflicts;
    var stored := StoredConflicts(ledger, id);
    KnownKey(stored, c);
    if rec :| rec in ledger && rec.ruleId == id
              && rec.conflict.kind == c.kind && rec.conflict.other == c.other && rec.conflict.detail == c.detail {
      StoredMember(ledger, id, rec.conflict);
      assert rec == Record(id, rec.conflict) && KeyOf(rec.conflict) == KeyOf(c);
    }
    if e :| e in stored && KeyOf(e) == KeyOf(c) {
      StoredMember(ledger, id, e);
      var rec := Record(id, e);
      assert rec in ledger && rec.ruleId == id && rec.conflict == e;
    }
  }

  // ---------- proposing ----------

  /** Only the user may propose, and not an empty text. A proposed rule is the draft: its stripped text, domain,
      keywords, effect and artifact cost, pending and undecided, behind the other rules, which stay as they are; what
      detection finds for it is recorded, and handed back with what was on record. */
  lemma ProposedAsDrafted(n: Normaliser, s: State, d: Draft)
    ensures
      var (after, r) := Propose(n, s, d);
      var fromUser := d.sourceType == "user_explicit" || d.sourceType == "user_confirmed";
      && (r == Failure(BadSource) <==> !fromUser)
      && (r == Failure(EmptyText) <==> fromUser && forall i | 0 <= i < |d.text| :: IsSpace(d.text[i]))
      && (r.Failure? ==> after == s && (r.error == BadSource || r.error == EmptyText))
      && (r.Success? ==>
            && |after.rules| == |s.rules| + 1 && after.rules[..|s.rules|] == s.rules
            && after.ledger == DetectAndStore(n, s.(rules := after.rules), |s.rules|).ledger
            && r.value.rule == after.rules[|s.rules|]
            && (forall c :: c in r.value.conflicts <==> Record(|s.rules|, c) in after.ledger)
            && var rule := after.rules[|s.rules|];
            && rule.text == Strip(d.text) && rule.domain == d.domain && rule.keywords == d.keywords
            && rule.effect == d.effect && rule.artifactCost == d.artifactCost
            && rule.id == |s.rules| && rule.status == Pending
            && rule.decidedBy == None && rule.decidedAt == None && rule.rejectionReason == None
            && rule.activatedAt == None && rule.expiresAt == None)
  {
    hide AllConflicts, Fresh, Strip;
    StripEmptyIff(d.text);
    if Propose(n, s, d).1.Success? {
      var id := |s.rules|;
      var added := s.(rules := s.rules + [NewRule(id, d)]);
      forall c
        ensures c in AllConflicts(n, added, id) <==> Record(id, c) in DetectAndStore(n, added, id).ledger
      {
        LedgerAfterDetection(n, added, id, Record(id, c));
      }
    }
  }

  lemma StripEmptyIff(s: string)
    ensures Strip(s) == "" <==> forall i | 0 <= i < |s| :: IsSpace(s[i])
  {
    StripIs(s);
  }

  // ---------- deciding ----------

  /** Rule `id` alone differs, and of it only the status and what belongs to the decision. */
  ghost predicate OnlyDecides(rules: seq<Rule>, after: seq<Rule>, id: nat, status: Status, who: string, now: int) {
    && id < |rules| && |after| == |rules| && (forall i | 0 <= i < |rules| && i != id :: after[i] == rules[i])
    && after[id].status == status && after[id].decidedBy == Some(who) && after[id].decidedAt == Some(now)
    && after[id] == rules[id].(status := status, decidedBy := Some(who), decidedAt := Some(now),
                               rejectionReason := after[id].rejectionReason,
                               activatedAt := after[id].activatedAt, expiresAt := after[id].expiresAt)
  }

  ghost predicate HardStop(n: Normaliser, s: State, id: nat)
    requires id < |s.rules|
  {
    || (exists rec :: rec in s.ledger && rec.ruleId == id && rec.conflict.severity == Hard)
    || (exists i :: 0 <= i < |s.rules| && s.rules[i].status == Active
                    && ShareTerm(n, s.rules[id].keywords, s.rules[i].keywords)
                    && Opposed(n, s.rules[id].effect, s.rules[i].effect))
    || Count(ActiveIn(s.rules[id].domain), s.rules) >= 5
    || Count(IsActive, s.rules) >= 20
  }

  /** In every reachable state an approval of a pending rule records what it detects, and it answers: not found, not
      pending, hard conflicts (recorded or met now), soft conflicts unless overridden, or success. A success
      activates the rule for thirty days, keeping everything else about it and about the other rules; a failure
      leaves all rules as they are. */
  lemma ApprovalOutcome(n: Normaliser, steps: seq<Step>, id: nat, who: string, overrideSoft: bool, now: int)
    ensures
      var s := Run(n, EMPTY, steps);
      var (after, r) := Approve(n, s, id, who, overrideSoft, now);
      var pending := id < |s.rules| && s.rules[id].status == Pending;
      && after.ledger == (if pending then DetectAndStore(n, s, id).ledger else s.ledger)
      && (r == Failure(NotFound) <==> id >= |s.rules|)
      && (r == Failure(NotPending) <==> id < |s.rules| && s.rules[id].status != Pending)
      && ((r.Failure? && r.error.HardConflicts?) <==> pending && HardStop(n, s, id))
      && ((r.Failure? && r.error.SoftConflicts?) <==>
            pending && !HardStop(n, s, id) && !overrideSoft && !NothingSoft(n, s, s.rules[id]))
      && (r.Success? <==>
            pending && !HardStop(n, s, id) && (overrideSoft || NothingSoft(n, s, s.rules[id])))
      && (r.Failure? ==> after.rules == s.rules)
      && (r.Failure? && r.error.HardConflicts? ==>
            id < |s.rules| && r.error.count == Count(IsHard, AllConflicts(n, s, id)))
      && (r.Failure? && r.error.SoftConflicts? ==>
            id < |s.rules| && r.error.count == Count(IsSoft, AllConflicts(n, s, id)))
      && (r.Success? ==>
            && OnlyDecides(s.rules, after.rules, id, Active, who, now) && r.value == after.rules[id]
            && after.rules[id].rejectionReason == s.rules[id].rejectionReason
            && after.rules[id].activatedAt == Some(now) && after.rules[id].expiresAt == Some(now + 2592000))
  {
    hide Run, Approve, Inv, HardStop, NothingSoft, OnlyDecides;
    EmptyInv(n);
    RunKeepsInv(n, EMPTY, steps);
    var s := Run(n, EMPTY, steps);
    ApprovalAnswers(n, s, id, who, overrideSoft, now);
    ApprovalEffect(n, s, id, who, overrideSoft, now);
  }

  lemma ApprovalEffect(n: Normaliser, s: State, id: nat, who: string, overrideSoft: bool, now: int)
    ensures
      var (after, r) := Approve(n, s, id, who, overrideSoft, now);
      && after.ledger == (if id < |s.rules| && s.rules[id].status == Pending then DetectAndStore(n, s, id).ledger
                          else s.ledger)
      && (r.Failure? ==> after.rules == s.rules)
      && (r.Failure? && r.error.HardConflicts? ==>
            id < |s.rules| && r.error.count == Count(IsHard, AllConflicts(n, s, id)))
      && (r.Failure? && r.error.SoftConflicts? ==>
            id < |s.rules| && r.error.count == Count(IsSoft, AllConflicts(n, s, id)))
      && (r.Success? ==>
            && OnlyDecides(s.rules, after.rules, id, Active, who, now) && r.value == after.rules[id]
            && after.rules[id].rejectionReason == s.rules[id].rejectionReason
            && after.rules[id].activatedAt == Some(now) && after.rules[id].expiresAt == Some(now + 2592000))
  {
    hide AllConflicts, Fresh, Count;
  }

  lemma ApprovalAnswers(n: Normaliser, s: State, id: nat, who: string, overrideSoft: bool, now: int)
    requires Inv(n, s)
    ensures
      var r := Approve(n, s, id, who, overrideSoft, now).1;
      var pending := id < |s.rules| && s.rules[id].status == Pending;
      && (r == Failure(NotFound) <==> id >= |s.rules|)
      && (r == Failure(NotPending) <==> id < |s.rules| && s.rules[id].status != Pending)
      && ((r.Failure? && r.error.HardConflicts?) <==> pending && HardStop(n, s, id))
      && ((r.Failure? && r.error.SoftConflicts?) <==>
            pending && !HardStop(n, s, id) && !overrideSoft && !NothingSoft(n, s, s.rules[id]))
      && (r.Success? <==>
            pending && !HardStop(n, s, id) && (overrideSoft || NothingSoft(n, s, s.rules[id])))
  {
    if id < |s.rules| && s.rules[id].status == Pending {
      hide Inv, AllConflicts, Fresh, Count, NothingSoft, HardStop, Obstructed;
      HardStopIff(n, s, id);
      HardStopReported(n, s, id);
      UnobstructedIff(n, s, id, who, overrideSoft, now);
    }
  }

  lemma UnobstructedIff(n: Normaliser, s: State, id: nat, who: string, overrideSoft: bool, now: int)
    requires Inv(n, s) && id < |s.rules| && s.rules[id].status == Pending
    ensures Approve(n, s, id, who, overrideSoft, now).1.Success? <==>
              !Obstructed(n, s, id) && (overrideSoft || NothingSoft(n, s, s.rules[id]))
  {
    hide Inv, AllConflicts, Fresh, Count, NothingSoft, Clash, HasHardRecord, Approve;
    ApproveIff(n, s, id, who, overrideSoft, now);
  }

  ghost predicate Obstructed(n: Normaliser, s: State, id: nat)
    requires id < |s.rules|
  {
    || HasHardRecord(s.ledger, id)
    || (exists i :: 0 <= i < |s.rules| && s.rules[i].status == Active && Clash(n, s.rules[id], s.rules[i]))
    || Count(ActiveIn(s.rules[id].domain), s.rules) >= DEFAULT_CAPS.domainRules
    || Count(IsActive, s.rules) >= DEFAULT_CAPS.globalRules
  }

  lemma HardStopIff(n: Normaliser, s: State, id: nat)
    requires id < |s.rules|
    ensures HardStop(n, s, id) <==> Obstructed(n, s, id)
  {
    hide Count, Clash, ShareTerm;
    forall i | 0 <= i < |s.rules|
      ensures Clash(n, s.rules[id], s.rules[i]) <==>
                ShareTerm(n, s.rules[id].keywords, s.rules[i].keywords)
                && Opposed(n, s.rules[id].effect, s.rules[i].effect)
    {
      ClashIff(n, s.rules[id], s.rules[i]);
    }
    hide Opposed;
  }

  lemma HardStopReported(n: Normaliser, s: State, id: nat)
    requires Inv(n, s) && id < |s.rules| && s.rules[id].status == Pending
    ensures Count(IsHard, AllConflicts(n, s, id)) > 0 <==> HardStop(n, s, id)
  {
    InvParts(n, s);
    hide Inv, AllConflicts, Count, Clash, HardStop, HasHardRecord, Detected, HasHardConflict;
    HardIsReported(n, s, id);
    DetectedHardIff(n, s, id);
    HardStopIff(n, s, id);
  }

  /** Rejecting: only a pending rule, which becomes rejected with the given reason. Retiring: an active or pending rule,
      which becomes retired and keeps its reason when none is given. The ledger and every other rule stay. */
  lemma RejectionOutcome(s: State, id: nat, who: string, reason: Option<string>, now: int)
    ensures
      var (after, r) := Reject(s, id, who, reason, now);
      && after.ledger == s.ledger
      && (r == Failure(NotFound) <==> id >= |s.rules|)
      && (r == Failure(NotPending) <==> id < |s.rules| && s.rules[id].status != Pending)
      && (r.Failure? ==> after == s && (r.error == NotFound || r.error == NotPending))
      && (r.Success? ==>
            && OnlyDecides(s.rules, after.rules, id, Status.Rejected, who, now) && r.value == after.rules[id]
            && after.rules[id].rejectionReason == reason
            && after.rules[id].activatedAt == s.rules[id].activatedAt
            && after.rules[id].expiresAt == s.rules[id].expiresAt)
  {
  }

  lemma RetirementOutcome(s: State, id: nat, who: string, reason: Option<string>, now: int)
    ensures
      var (after, r) := Retire(s, id, who, reason, now);
      && after.ledger == s.ledger
      && (r == Failure(NotFound) <==> id >= |s.rules|)
      && ((r.Failure? && r.error.NotRetirable?) <==>
            id < |s.rules| && s.rules[id].status != Active && s.rules[id].status != Pending)
      && (r.Failure? ==> after == s)
      && (r.Success? ==>
            && OnlyDecides(s.rules, after.rules, id, Status.Retired, who, now) && r.value == after.rules[id]
            && (reason.Some? && reason.value != "" ==> after.rules[id].rejectionReason == reason)
            && (reason == None || reason == Some("") ==>
                  after.rules[id].rejectionReason == s.rules[id].rejectionReason)
            && after.rules[id].activatedAt == s.rules[id].activatedAt
            && after.rules[id].expiresAt == s.rules[id].expiresAt)
  {
  }

  // ---------- the nightly cleanup ----------

  /** In every reachable state a cleanup sends back for review exactly the active rules approved thirty days ago or
      earlier: rule `i` is active afterwards if and only if it was and its thirty days are not over. A rule that stays
      active, and one that was not active, is untouched; one that is sent back only changes to pending and loses its
      activation time. The ledger stays. */
  lemma CleanUpOutcome(n: Normaliser, steps: seq<Step>, now: int, i: nat)
    requires i < |Run(n, EMPTY, steps).rules|
    ensures
      var s := Run(n, EMPTY, steps);
      var after := CleanUp(s, now);
      && after.ledger == s.ledger && |after.rules| == |s.rules|
      && (s.rules[i].status == Active ==> s.rules[i].activatedAt.Some?)
      && (after.rules[i].status == Active <==>
            s.rules[i].status == Active && now < s.rules[i].activatedAt.value + 2592000)
      && (after.rules[i].status == Active || s.rules[i].status != Active ==> after.rules[i] == s.rules[i])
      && (s.rules[i].status == Active && after.rules[i].status != Active ==>
            after.rules[i] == s.rules[i].(status := Pending, activatedAt := None))
  {
    hide Run;
    RunKeepsDates(n, EMPTY, steps);
  }
}
