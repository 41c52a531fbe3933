/** What runs of the rule service can reach: which rules may still become active, and which are blocked for good. */
module RuleRuns {
  import opened Prelude
  import opened Text
  import opened Lanes
  import opened Rules
  import opened RuleService

  // ---------- runs in a row ----------

  lemma {:induction false} RunAppend(n: Normaliser, s: State, a: seq<Step>, b: seq<Step>)
    ensures Run(n, s, a + b) == Run(n, Run(n, s, a), b)
    decreases |a|
  {
    hide Apply;
    if a == [] {
      assert a + b == b;
    } else {
      assert (a + b)[0] == a[0] && (a + b)[1..] == a[1..] + b;
      RunAppend(n, Apply(n, s, a[0]), a[1..], b);
    }
  }

  lemma RunOne(n: Normaliser, s: State, x: Step)
    ensures Run(n, s, [x]) == Apply(n, s, x)
  {
    hide Apply;
    assert [x][1..] == [];
  }

  function Raise(id: nat, d: Draft): seq<Step> {
    [ProposeStep(d), ApproveStep(id, "user", false, 0)]
  }

  lemma RunTwo(n: Normaliser, s: State, x: Step, y: Step, rest: seq<Step>)
    ensures Run(n, s, [x, y] + rest) == Run(n, Apply(n, Apply(n, s, x), y), rest)
  {
    hide Apply;
    assert ([x, y] + rest)[1..] == [y] + rest && ([y] + rest)[1..] == rest;
  }

  lemma RunNothing(n: Normaliser, s: State)
    ensures Run(n, s, []) == s
  {
  }

  lemma RaisedUnopposed(n: Normaliser, rules: seq<Rule>, d: Draft, rest: seq<Step>)
    requires d.sourceType == "user_explicit" && d.text == "x"
    requires DetectConflicts(n, SpecOf(NewRule(|rules|, d)), ActiveSpecs(rules, |rules|), DEFAULT_CAPS) == []
    ensures Run(n, State(rules, []), Raise(|rules|, d) + rest)
         == Run(n, State(rules + [Activated(NewRule(|rules|, d), "user", 0)], []), rest)
  {
    hide Run, Apply, DetectConflicts, ActiveSpecs, NewRule, Activated;
    ApprovedUnopposed(n, rules, d);
    RunTwo(n, State(rules, []), ProposeStep(d), ApproveStep(|rules|, "user", false, 0), rest);
  }

  /** A proposal that detection has nothing against is approved on the spot. */
  lemma ApprovedUnopposed(n: Normaliser, rules: seq<Rule>, d: Draft)
    requires d.sourceType == "user_explicit" && d.text == "x"
    requires DetectConflicts(n, SpecOf(NewRule(|rules|, d)), ActiveSpecs(rules, |rules|), DEFAULT_CAPS) == []
    ensures
      var proposed := Apply(n, State(rules, []), ProposeStep(d));
      var rule := Activated(NewRule(|rules|, d), "user", 0);
      Apply(n, proposed, ApproveStep(|rules|, "user", false, 0)) == State(rules + [rule], [])
  {
    var id := |rules|;
    var added := State(rules + [NewRule(id, d)], []);
    OneLetterStrips();
    FilterAppend(ActiveOther(id), rules, [NewRule(id, d)]);
    assert Filter(ActiveOther(id), [NewRule(id, d)]) == [];
    assert ActiveSpecs(added.rules, id) == ActiveSpecs(rules, id) by {
      assert Filter(ActiveOther(id), rules) + [] == Filter(ActiveOther(id), rules);
    }
    NothingDetected(n, added, id);
    assert added.rules[id := Activated(NewRule(id, d), "user", 0)] == rules + [Activated(NewRule(id, d), "user", 0)];
  }

  lemma NothingDetected(n: Normaliser, s: State, id: nat)
    requires id < |s.rules| && s.ledger == [] && Detected(n, s, id) == []
    ensures DetectAndStore(n, s, id) == s && AllConflicts(n, s, id) == []
  {
    hide Detected;
  }

  lemma OneLetterStrips()
    ensures Strip("x") == "x"
  {
    assert RunLength(IsSpace, "x") == 0;
    assert "x"[0..] == "x";
  }

  // ---------- which pending rules may still become active ----------

  ghost predicate ActiveAfter(n: Normaliser, s: State, id: nat, steps: seq<Step>) {
    var rules := Run(n, s, steps).rules;
    id < |rules| && rules[id].status == Active
  }

  /** Retires the first `count` rules, all but rule `id`. */
  function RetireOthers(id: nat, count: nat): seq<Step> {
    if count == 0 then []
    else RetireOthers(id, count - 1) + if count - 1 == id then [] else [RetireStep(count - 1, "user", None, 0)]
  }

  /** The ledger and rule `id` are as before, and none of the other first `count` rules is active. */
  ghost predicate Cleared(s: State, after: State, id: nat, count: nat)
    requires id < |s.rules| && count <= |s.rules|
  {
    && |after.rules| == |s.rules| && after.ledger == s.ledger && after.rules[id] == s.rules[id]
    && forall i | 0 <= i < count && i != id :: after.rules[i].status != Active
  }

  lemma {:induction false} RetireOthersClears(n: Normaliser, s: State, id: nat, count: nat)
    requires id < |s.rules| && count <= |s.rules|
    ensures Cleared(s, Run(n, s, RetireOthers(id, count)), id, count)
    decreases count
  {
    if count == 0 {
    } else {
      hide Run, Apply, Cleared;
      RetireOthersClears(n, s, id, count - 1);
      var mid := Run(n, s, RetireOthers(id, count - 1));
      if count - 1 == id {
        assert RetireOthers(id, count - 1) + [] == RetireOthers(id, count - 1);
        ClearedSelf(s, mid, id);
      } else {
        RunAppend(n, s, RetireOthers(id, count - 1), [RetireStep(count - 1, "user", None, 0)]);
        RunOne(n, mid, RetireStep(count - 1, "user", None, 0));
        RetireOneMore(n, s, mid, id, count - 1);
      }
    }
  }

  lemma ClearedSelf(s: State, mid: State, id: nat)
    requires id < |s.rules| && Cleared(s, mid, id, id)
    ensures Cleared(s, mid, id, id + 1)
  {
  }

  lemma RetireOneMore(n: Normaliser, s: State, mid: State, id: nat, i: nat)
    requires id < |s.rules| && i < |s.rules| && i != id && Cleared(s, mid, id, i)
    ensures Cleared(s, Apply(n, mid, RetireStep(i, "user", None, 0)), id, i + 1)
  {
  }

  /** The run that activates a rule with a clean record: retire every other rule, then approve with the override. */
  function MakeWay(id: nat, count: nat): seq<Step> {
    RetireOthers(id, count) + [ApproveStep(id, "user", true, 0)]
  }

  lemma CleanRecordActivates(n: Normaliser, s: State, id: nat)
    requires Inv(n, s) && id < |s.rules| && s.rules[id].status == Pending && !HasHardRecord(s.ledger, id)
    ensures ActiveAfter(n, s, id, MakeWay(id, |s.rules|))
  {
    hide Run, Inv, Approve;
    var mid := Run(n, s, RetireOthers(id, |s.rules|));
    RetireOthersClears(n, s, id, |s.rules|);
    RunKeepsInv(n, s, RetireOthers(id, |s.rules|));
    NoneActive(mid, id);
    ApproveIff(n, mid, id, "user", true, 0);
    ApprovedIsActive(n, mid, id);
    RunAppend(n, s, RetireOthers(id, |s.rules|), [ApproveStep(id, "user", true, 0)]);
    RunOne(n, mid, ApproveStep(id, "user", true, 0));
  }

  lemma ApprovedIsActive(n: Normaliser, s: State, id: nat)
    ensures
      var (after, r) := Approve(n, s, id, "user", true, 0);
      r.Success? ==> id < |after.rules| && after.rules[id].status == Active
  {
    hide AllConflicts, Count;
  }

  lemma NoneActive(s: State, id: nat)
    requires id < |s.rules| && s.rules[id].status == Pending
    requires forall i | 0 <= i < |s.rules| && i != id :: s.rules[i].status != Active
    ensures Count(IsActive, s.rules) == 0 && forall domain: string :: Count(ActiveIn(domain), s.rules) == 0
  {
    forall r | r in s.rules
      ensures r.status != Active
    {
      var i :| 0 <= i < |s.rules| && s.rules[i] == r;
    }
    FilterNone(IsActive, s.rules);
    forall domain: string
      ensures Count(ActiveIn(domain), s.rules) == 0
    {
      FilterNone(ActiveIn(domain), s.rules);
    }
  }

  lemma HardRecordBlocks(n: Normaliser, s: State, id: nat, steps: seq<Step>)
    requires Inv(n, s) && HasHardRecord(s.ledger, id)
    ensures !ActiveAfter(n, s, id, steps)
  {
    hide Run, NoClash, WithinCaps, Numbered;
    var rec :| rec in s.ledger && rec.ruleId == id && IsHard(rec.conflict);
    LedgerGrows(n, s, steps);
    RunKeepsInv(n, s, steps);
    assert rec in Run(n, s, steps).ledger;
  }

  /** Exactly when a pending rule can still become active: there is no hard conflict on record for it. Everything else
      that may stand in its way can be cleared. */
  lemma MayBecomeActiveIff(n: Normaliser, s: State, id: nat)
    requires Inv(n, s) && id < |s.rules| && s.rules[id].status == Pending
    ensures (exists steps :: ActiveAfter(n, s, id, steps)) <==> !HasHardRecord(s.ledger, id)
  {
    hide Inv, ActiveAfter, HasHardRecord;
    if !HasHardRecord(s.ledger, id) {
      CleanRecordActivates(n, s, id);
    }
    if steps :| ActiveAfter(n, s, id, steps) {
      if HasHardRecord(s.ledger, id) {
        HardRecordBlocks(n, s, id, steps);
      }
    }
  }

  // ---------- proposals that are blocked from the start ----------

  /** What detection reports as hard is on record afterwards. */
  lemma ReportedIsRecorded(n: Normaliser, s: State, id: nat)
    requires id < |s.rules| && LedgerSound(s)
    ensures HasHardRecord(DetectAndStore(n, s, id).ledger, id)
            <==> HasHardConflict(Detected(n, s, id)) || HasHardRecord(s.ledger, id)
  {
    hide Detected, StoredConflicts, LedgerSound;
    var added, after := Fresh(n, s, id), DetectAndStore(n, s, id).ledger;
    HardIsReported(n, s, id);
    CountPositive(IsHard, AllConflicts(n, s, id));
    if c :| c in AllConflicts(n, s, id) && IsHard(c) {
      if c in added {
        var k :| 0 <= k < |added| && added[k] == c;
        assert Map(RecordFor(id), added)[k] == Record(id, c);
      } else {
        StoredMember(s.ledger, id, c);
      }
      assert Record(id, c) in after;
    }
    if rec :| rec in after && rec.ruleId == id && IsHard(rec.conflict) {
      if rec !in s.ledger {
        FreshMember(n, s, id, rec);
      }
    }
  }

  /** Exactly when a rule is blocked for good by its own proposal: it contradicts an active rule, or its domain or the
      table is full at that moment. */
  lemma BlockedFromTheStartIff(n: Normaliser, s: State, d: Draft)
    requires Inv(n, s) && Propose(n, s, d).1.Success?
    ensures
      var after, rule := Propose(n, s, d).0, NewRule(|s.rules|, d);
      (forall steps :: !ActiveAfter(n, after, |s.rules|, steps)) <==>
        || (exists i :: 0 <= i < |s.rules| && s.rules[i].status == Active && Clash(n, rule, s.rules[i]))
        || Count(ActiveIn(d.domain), s.rules) >= 5
        || Count(IsActive, s.rules) >= 20
  {
    var id, rule := |s.rules|, NewRule(|s.rules|, d);
    var added := s.(rules := s.rules + [rule]);
    ProposeKeepsInv(n, s, d);
    ProposedState(n, s, d);
    assert Inv(n, added) by {
      hide *;
      NewRuleIsPending(id, d);
      AdditionKeepsInv(n, s, rule);
    }
    NoRecordYet(n, s, d);
    hide Inv, ActiveAfter, HasHardRecord, Detected, Count, Clash, Propose, DetectAndStore, LedgerSound;
    MayBecomeActiveIff(n, Propose(n, s, d).0, id);
    ReportedIsRecorded(n, added, id);
    HardForNewIff(n, s, rule);
  }

  /** What a rule put behind the others meets is what is among them. */
  lemma HardForNewIff(n: Normaliser, s: State, rule: Rule)
    requires Numbered(s.rules + [rule]) && rule.status == Pending
    ensures HasHardConflict(Detected(n, s.(rules := s.rules + [rule]), |s.rules|)) <==>
              || (exists i :: 0 <= i < |s.rules| && s.rules[i].status == Active && Clash(n, rule, s.rules[i]))
              || Count(ActiveIn(rule.domain), s.rules) >= 5
              || Count(IsActive, s.rules) >= 20
  {
    hide Detected, Count, Clash, HasHardConflict;
    var id, added := |s.rules|, s.(rules := s.rules + [rule]);
    DetectedHardIff(n, added, id);
    CountSnoc(ActiveIn(rule.domain), s.rules, rule);
    CountSnoc(IsActive, s.rules, rule);
    assert forall i | 0 <= i < |s.rules| :: added.rules[i] == s.rules[i];
    if i :| 0 <= i < |s.rules| && s.rules[i].status == Active && Clash(n, rule, s.rules[i]) {
      assert Clash(n, added.rules[id], added.rules[i]);
    }
  }

  lemma NoRecordYet(n: Normaliser, s: State, d: Draft)
    requires Inv(n, s)
    ensures
      var added := s.(rules := s.rules + [NewRule(|s.rules|, d)]);
      !HasHardRecord(added.ledger, |s.rules|) && LedgerSound(added) && Numbered(added.rules)
  {
    hide NoClash, WithinCaps;
  }

  lemma NewRuleIsPending(id: nat, d: Draft)
    ensures NewRule(id, d).id == id && NewRule(id, d).status == Pending && NewRule(id, d).domain == d.domain
  {
  }

  lemma ProposedState(n: Normaliser, s: State, d: Draft)
    requires Propose(n, s, d).1.Success?
    ensures
      var added := s.(rules := s.rules + [NewRule(|s.rules|, d)]);
      Propose(n, s, d).0 == DetectAndStore(n, added, |s.rules|)
  {
    hide DetectAndStore, AllConflicts;
  }

  // ---------- a full domain ----------

  /** A rule that can meet no other: it has no keywords. */
  const PLAIN: Draft := Draft("x", "global", [], Effect(None, "affirm"), 0, "user_explicit")

  function PlainRule(id: nat): Rule {
    Activated(NewRule(id, PLAIN), "user", 0)
  }

  function PlainRules(count: nat): (rules: seq<Rule>)
    ensures |rules| == count && forall i | 0 <= i < count :: rules[i] == PlainRule(i)
  {
    if count == 0 then [] else PlainRules(count - 1) + [PlainRule(count - 1)]
  }

  /** Propose and approve one plain rule after the other. */
  function RaiseMany(count: nat): seq<Step> {
    if count == 0 then [] else RaiseMany(count - 1) + Raise(count - 1, PLAIN)
  }

  lemma {:induction false} NothingMapped<A, B>(f: A -> seq<B>, s: seq<A>)
    requires forall x | x in s :: f(x) == []
    ensures FlatMap(f, s) == []
  {
    if s == [] {
    } else {
      assert s[0] in s && forall x | x in s[1..] :: x in s;
      NothingMapped(f, s[1..]);
    }
  }

  lemma {:induction false} SumOfZeros(s: seq<int>)
    requires forall x | x in s :: x == 0
    ensures Sum(s) == 0
  {
    if s == [] {
    } else {
      assert s[0] in s && forall x | x in s[1..] :: x in s;
      SumOfZeros(s[1..]);
    }
  }

  lemma PlainSpec(count: nat, spec: RuleSpec)
    requires spec in ActiveSpecs(PlainRules(count), count)
    ensures spec.keywords == [] && spec.artifactCost == 0
  {
    hide PlainRules;
    var i := ActiveSpecOf(PlainRules(count), count, spec);
  }

  lemma PlainUnopposed(n: Normaliser, count: nat)
    requires count < 5
    ensures DetectConflicts(n, SpecOf(NewRule(count, PLAIN)), ActiveSpecs(PlainRules(count), count), DEFAULT_CAPS) == []
  {
    hide PlainRules, ActiveSpecs, OppositeEffects;
    var proposed, active := SpecOf(NewRule(count, PLAIN)), ActiveSpecs(PlainRules(count), count);
    ActiveSpecsBound(PlainRules(count), count);
    forall spec | spec in active
      ensures CheckAgainst(n, proposed)(spec) == []
    {
      PlainSpec(count, spec);
    }
    NothingMapped(CheckAgainst(n, proposed), active);
    NoArtifacts(active, count);
  }

  lemma ActiveSpecsBound(rules: seq<Rule>, id: nat)
    ensures |ActiveSpecs(rules, id)| <= |rules|
  {
  }

  lemma NoArtifacts(active: seq<RuleSpec>, count: nat)
    requires active == ActiveSpecs(PlainRules(count), count)
    ensures Sum(Map(ArtifactCost, Filter(InDomain("global"), active))) == 0
  {
    hide PlainRules, ActiveSpecs;
    var own := Filter(InDomain("global"), active);
    forall x | x in Map(ArtifactCost, own)
      ensures x == 0
    {
      var i :| 0 <= i < |own| && ArtifactCost(own[i]) == x;
      FilterMember(InDomain("global"), active, own[i]);
      PlainSpec(count, own[i]);
    }
    SumOfZeros(Map(ArtifactCost, own));
  }

  lemma {:induction false} PlainRulesRaised(n: Normaliser, count: nat)
    requires count <= 5
    ensures Run(n, EMPTY, RaiseMany(count)) == State(PlainRules(count), [])
  {
    if count == 0 {
    } else {
      hide Run, Raise, DetectConflicts, ActiveSpecs, NewRule, Activated;
      var k := count - 1;
      PlainRulesRaised(n, k);
      PlainUnopposed(n, k);
      RunAppend(n, EMPTY, RaiseMany(k), Raise(k, PLAIN));
      RaisedUnopposed(n, PlainRules(k), PLAIN, []);
      assert Raise(k, PLAIN) + [] == Raise(k, PLAIN);
      RunNothing(n, State(PlainRules(count), []));
    }
  }

  lemma PlainRulesActive(count: nat)
    ensures Count(ActiveIn("global"), PlainRules(count)) == count
  {
    FilterAll(ActiveIn("global"), PlainRules(count));
  }

  /** Five rules are active in a domain when a sixth is proposed; then one is retired. There is room again, nothing
      contradicts the sixth, and its approval still fails, now and after any further steps. */
  lemma FullDomainBlocks(n: Normaliser, later: seq<Step>)
    ensures
      var s := Run(n, EMPTY, RaiseMany(5) + [ProposeStep(PLAIN), RetireStep(0, "user", None, 0)]);
      && Count(ActiveIn("global"), s.rules) == 4
      && 5 < |s.rules| && s.rules[5].status == Pending
      && Approve(n, s, 5, "user", true, 0).1.Failure?
      && !ActiveAfter(n, s, 5, later)
  {
    hide Run, RaiseMany, PlainRules, Approve, Inv, ActiveAfter;
    var full := State(PlainRules(5), []);
    var proposed := Apply(n, full, ProposeStep(PLAIN));
    var s := Apply(n, proposed, RetireStep(0, "user", None, 0));
    PlainRulesRaised(n, 5);
    RunAppend(n, EMPTY, RaiseMany(5), [ProposeStep(PLAIN), RetireStep(0, "user", None, 0)]);
    RunTwo(n, full, ProposeStep(PLAIN), RetireStep(0, "user", None, 0), []);
    assert [ProposeStep(PLAIN), RetireStep(0, "user", None, 0)] + []
        == [ProposeStep(PLAIN), RetireStep(0, "user", None, 0)];
    RunNothing(n, s);
    EmptyInv(n);
    RunKeepsInv(n, EMPTY, RaiseMany(5));
    StepPreserves(n, full, ProposeStep(PLAIN));
    StepPreserves(n, proposed, RetireStep(0, "user", None, 0));
    SixthIsRecorded(n, full);
    SixthAfterRetiring(n, full);
    ApproveIff(n, s, 5, "user", true, 0);
    HardRecordBlocks(n, s, 5, later);
  }

  lemma SixthIsRecorded(n: Normaliser, full: State)
    requires full == State(PlainRules(5), []) && Inv(n, full)
    ensures
      var proposed := Apply(n, full, ProposeStep(PLAIN));
      && proposed.rules == full.rules + [NewRule(5, PLAIN)]
      && HasHardRecord(proposed.ledger, 5)
  {
    hide PlainRules, Clash, Detected, Count, AllConflicts, Fresh;
    var added := State(full.rules + [NewRule(5, PLAIN)], []);
    OneLetterStrips();
    ReportedIsRecorded(n, added, 5);
    DetectedHardIff(n, added, 5);
    PlainRulesActive(5);
    CountSnoc(ActiveIn("global"), full.rules, NewRule(5, PLAIN));
  }

  lemma SixthAfterRetiring(n: Normaliser, full: State)
    requires full == State(PlainRules(5), []) && Inv(n, full)
    ensures
      var proposed := Apply(n, full, ProposeStep(PLAIN));
      var s := Apply(n, proposed, RetireStep(0, "user", None, 0));
      && Count(ActiveIn("global"), s.rules) == 4 && |s.rules| == 6 && s.rules[5].status == Pending
      && s.ledger == proposed.ledger && HasHardRecord(s.ledger, 5)
  {
    hide Count, Propose, Inv, HasHardRecord;
    var proposed := Apply(n, full, ProposeStep(PLAIN));
    SixthIsRecorded(n, full);
    PlainRulesActive(5);
    CountSnoc(ActiveIn("global"), full.rules, NewRule(5, PLAIN));
    var retired := Apply(n, proposed, RetireStep(0, "user", None, 0)).rules[0];
    CountUpdate(ActiveIn("global"), proposed.rules, 0, retired);
  }
}
