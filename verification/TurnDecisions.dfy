/** What becomes of each claim of a turn and of each proposal, told from the answers of the gates. */
module TurnDecisions {
  import opened Prelude
  import opened Claims
  import opened TurnPipeline

  // ---------- what the gates are shown ----------

  /** `given` is the claim with its own source, or the turn as its source when it names none; `seen` is the same, except
      that provenance may lock the claim to tentative. */
  predicate Presented(g: Gates, claim: ClaimData, turnId: string, given: Proposal, seen: Proposal) {
    && given.claim == claim
    && (claim.sourceRef.Some? && claim.sourceRef.value != "" ==> Some(given.sourceRef) == claim.sourceRef)
    && (claim.sourceRef == None || claim.sourceRef == Some("") ==> given.sourceRef == turnId)
    && seen.sourceRef == given.sourceRef
    && seen.claim == (if g.provenance(given).lockedToTentative then claim.(state := Tentative) else claim)
  }

  function OnSubject(subject: string): ClaimData -> bool {
    (c: ClaimData) => c.subject == subject && (c.state == Tentative || c.state == VerificationState.Confirmed)
  }

  function FirstOf(text: string, n: nat): string {
    if |text| <= n then text else text[..n]
  }

  /** The answers of the later gates: to the claims on the same subject that are neither superseded nor retracted,
      and to the first 200 characters of the claim's content. */
  datatype Answers = Answers(conflict: Conflict, approval: Approval)

  ghost predicate Answered(g: Gates, db: Db, seen: Proposal, a: Answers) {
    && a.conflict == g.conflicts(seen, Filter(OnSubject(seen.claim.subject), db.claims))
    && a.approval == g.approval(FirstOf(seen.claim.content, 200), seen.claim.sensitivity)
  }

  predicate HeldBack(eligible: bool, taint: Taint, a: Answers) {
    a.conflict.ConflictGroup? || !eligible || a.approval.EscalatedTo? || taint.Escalate?
  }

  // ---------- one claim ----------

  /** The result of one claim, gate by gate. */
  ghost predicate Judged(valid: bool, eligible: bool, taint: Taint, a: Answers, result: ClaimResult) {
    && (result.RejectedBySchema? <==> !valid)
    && (forall reason: string :: result == RejectedBy(reason) <==>
          valid && (taint == Block(reason) || (!taint.Block? && a.approval == Denied(reason))))
    && (result.ProposalCreated? <==>
          valid && !taint.Block? && !a.approval.Denied? && HeldBack(eligible, taint, a))
    && (result.Created? <==>
          valid && !taint.Block? && !a.approval.Denied? && !HeldBack(eligible, taint, a))
    && !result.FilteredOut?
  }

  /** What one result leaves in the database: nothing, one claim, or one pending proposal with its conflict group. */
  ghost predicate Booked(met: Db, next: Db, seen: Proposal, a: Answers, result: ClaimResult) {
    match result
    case Created(id) =>
      && id == |met.claims| && next.proposals == met.proposals && next.groups == met.groups
      && |next.claims| == id + 1 && next.claims[..id] == met.claims
      && next.claims[id] == seen.claim.(sourceRef := next.claims[id].sourceRef)
      && (seen.sourceRef != "" ==> next.claims[id].sourceRef == Some(seen.sourceRef))
      && (seen.sourceRef == "" ==> next.claims[id].sourceRef == seen.claim.sourceRef)
    case ProposalCreated(id) =>
      && id == |met.proposals| && next.claims == met.claims
      && |next.proposals| == id + 1 && next.proposals[..id] == met.proposals
      && next.proposals[id] == StoredProposal(seen, next.proposals[id].groupId, Pending, None, None, None)
      && (if a.conflict.ConflictGroup? then
            && next.proposals[id].groupId == Some(|met.groups|)
            && |next.groups| == |met.groups| + 1 && next.groups[..|met.groups|] == met.groups
            && NoDuplicates(next.groups[|met.groups|])
            && forall c :: c in next.groups[|met.groups|] <==> c in a.conflict.claimIds
          else next.proposals[id].groupId == None && next.groups == met.groups)
    case _ => next == met
  }

  lemma PresentedAs(g: Gates, claim: ClaimData, turnId: string, given: Proposal, seen: Proposal)
    requires Presented(g, claim, turnId, given, seen)
    ensures given == GivenProposal(claim, turnId) && seen == EffectiveProposal(g, claim, turnId)
  {
  }

  lemma AnsweredAs(g: Gates, db: Db, seen: Proposal, a: Answers)
    requires Answered(g, db, seen, a)
    ensures a == Answers(ConflictFor(g, db, seen), ApprovalFor(g, seen))
  {
    FilterCongruent(About(seen.claim.subject), OnSubject(seen.claim.subject), db.claims);
  }

  lemma OneClaimDecided(g: Gates, met: Db, claim: ClaimData, taint: Taint, turnId: string, given: Proposal,
                        seen: Proposal, a: Answers)
    requires Presented(g, claim, turnId, given, seen) && Answered(g, met, seen, a)
    ensures var (next, result) := ProcessClaim(g, met, claim, taint, turnId);
            && Judged(g.validSchema(given), g.provenance(given).autoConfirmEligible, taint, a, result)
            && Booked(met, next, seen, a, result)
  {
    hide EffectiveProposal, GivenProposal, ConflictFor, ApprovalFor, Answered, Presented;
    PresentedAs(g, claim, turnId, given, seen);
    AnsweredAs(g, met, seen, a);
  }

  // ---------- every claim of a turn ----------

  lemma {:induction false} ResultAt(g: Gates, db: Db, claims: seq<ClaimData>, taint: Taint, turnId: string, i: nat)
    requires i < |claims|
    ensures
      var met := ProcessAll(g, db, claims[..i], taint, turnId).0;
      var (next, result) := ProcessClaim(g, met, claims[i], taint, turnId);
      var (after, results) := ProcessAll(g, db, claims, taint, turnId);
      && |results| == |claims| && results[i] == result
      && next == ProcessAll(g, db, claims[..i + 1], taint, turnId).0 && Extends(next, after)
    decreases |claims|
  {
    hide ProcessClaim;
    var n := |claims| - 1;
    ResultsCount(g, db, claims[..n], taint, turnId);
    if i == n {
      assert claims[..i + 1] == claims;
    } else {
      ResultAt(g, db, claims[..n], taint, turnId, i);
      assert claims[..n][..i] == claims[..i] && claims[..n][..i + 1] == claims[..i + 1];
      OneClaimHonoured(g, ProcessAll(g, db, claims[..n], taint, turnId).0, claims[n], taint, turnId);
    }
  }

  /** In every turn, each allowed claim is judged by the gates alone, at the database it met, with the claims before
      it in the turn already handled: rejected if and only if its schema is invalid, taint blocks it, or approval
      denies it, with that reason and without a trace; put up for review if and only if nothing rejects it and a
      conflict, its provenance, approval or taint holds it back; stored otherwise. What it left is still there at the
      end of the turn; and what the sensitivity filter held back is reported behind the allowed claims. */
  lemma EveryVerdict(g: Gates, db: Db, allowed: seq<ClaimData>, filteredCount: nat, taint: Taint, turnId: string,
                     i: nat,
                     given: Proposal, seen: Proposal, a: Answers)
    requires i < |allowed| && Presented(g, allowed[i], turnId, given, seen)
    requires Answered(g, ProcessAll(g, db, allowed[..i], taint, turnId).0, seen, a)
    ensures
      var met := ProcessAll(g, db, allowed[..i], taint, turnId).0;
      var next := ProcessAll(g, db, allowed[..i + 1], taint, turnId).0;
      var (after, results) := Finalize(g, db, allowed, filteredCount, taint, turnId);
      && |results| == |allowed| + filteredCount
      && Judged(g.validSchema(given), g.provenance(given).autoConfirmEligible, taint, a, results[i])
      && Booked(met, next, seen, a, results[i])
      && Extends(next, after) && (i == 0 ==> met == db) && (i + 1 == |allowed| ==> after == next)
      && forall j | |allowed| <= j < |results| :: results[j] == FilteredOut
  {
    assert allowed[..0] == [] && allowed[..|allowed|] == allowed;
    hide ProcessClaim, Judged, Booked, Presented, Answered;
    ResultAt(g, db, allowed, taint, turnId, i);
    OneClaimDecided(g, ProcessAll(g, db, allowed[..i], taint, turnId).0, allowed[i], taint, turnId, given, seen, a);
  }

  // ---------- decisions ----------

  /** A proposal made directly is refused exactly when it names a conflict group that does not exist. Otherwise it is
      stored behind the others, undecided, for the given group, with nothing else changed, and keeps its claim, its
      source and its group over every later run. */
  lemma SubmittedForGood(g: Gates, db: Db, p: Proposal, groupId: Option<nat>, later: seq<Step>)
    ensures
      var (after, r) := Submit(db, p, groupId);
      var n := |db.proposals|;
      && (r == Failure(UnknownGroup) <==> groupId.Some? && groupId.value >= |db.groups|)
      && (r.Failure? ==> after == db && r.error == UnknownGroup)
      && (r.Success? ==>
            && r.value == n && after.claims == db.claims && after.groups == db.groups
            && |after.proposals| == n + 1 && after.proposals[..n] == db.proposals
            && after.proposals[n] == StoredProposal(p, groupId, Pending, None, None, None)
            && var last := Run(g, after, later).0;
            && n < |last.proposals| && last.proposals[n].proposal == p && last.proposals[n].groupId == groupId)
  {
    hide Run;
    var (after, r) := Submit(db, p, groupId);
    if r.Success? {
      RunKeepsRows(g, after, later);
    }
  }

  predicate Decidable(db: Db, id: nat) {
    id < |db.proposals| && db.proposals[id].status == Pending
  }

  /** Only proposal `id` differs between the two. */
  predicate OnlyDecides(db: Db, after: Db, id: nat) {
    && id < |db.proposals| && |after.proposals| == |db.proposals| && after.groups == db.groups
    && after.proposals[id].proposal == db.proposals[id].proposal
    && after.proposals[id].groupId == db.proposals[id].groupId
    && forall k | 0 <= k < |db.proposals| && k != id :: after.proposals[k] == db.proposals[k]
  }

  /** A rejection succeeds exactly on a pending proposal: it ends up rejected, with who, when and why, stores no
      claim and touches nothing else; and over every later run it stays so and can be neither approved nor rejected
      again. */
  lemma RejectedForGood(g: Gates, db: Db, id: nat, who: string, reason: Option<string>, now: int, later: seq<Step>,
                        again: string, at: int)
    ensures
      var (after, r) := Reject(db, id, who, reason, now);
      && (r.Success? <==> Decidable(db, id))
      && (r.Failure? ==> after == db)
      && (r.Failure? ==> r.error == (if id < |db.proposals| then NotPending else UnknownProposal))
      && (r.Success? ==>
            && after.claims == db.claims && OnlyDecides(db, after, id) && r.value == after.proposals[id]
            && var p := after.proposals[id];
            && p.status == ProposalStatus.Rejected
            && p.rejectionReason == reason && p.decidedBy == Some(who) && p.decidedAt == Some(now)
            && var last := Run(g, after, later).0;
            && id < |last.proposals| && last.proposals[id] == p
            && Approve(last, id, again, at) == (last, Failure(NotPending))
            && Reject(last, id, again, reason, at) == (last, Failure(NotPending)))
  {
    hide Run;
    var (after, r) := Reject(db, id, who, reason, now);
    if r.Success? {
      DecidedOnce(g, after, later, id);
    }
  }

  /** An approval succeeds exactly on a pending proposal: it ends up confirmed, with who and when, its claim, with the
      proposal's source, is stored behind the others, and nothing else changes; over every later run it stays so. */
  lemma ApprovedForGood(g: Gates, db: Db, id: nat, who: string, now: int, later: seq<Step>)
    ensures
      var (after, r) := Approve(db, id, who, now);
      && (r.Success? <==> Decidable(db, id))
      && (r.Failure? ==> after == db)
      && (r.Failure? ==> r.error == (if id < |db.proposals| then NotPending else UnknownProposal))
      && (r.Success? ==>
            && OnlyDecides(db, after, id) && r.value == after.proposals[id]
            && var p := after.proposals[id];
            && p.status == ProposalStatus.Confirmed
            && p.rejectionReason == db.proposals[id].rejectionReason
            && p.decidedBy == Some(who) && p.decidedAt == Some(now)
            && |after.claims| == |db.claims| + 1 && after.claims[..|db.claims|] == db.claims
            && var claim := after.claims[|db.claims|];
            && claim == p.proposal.claim.(sourceRef := claim.sourceRef)
            && (p.proposal.sourceRef != "" ==> claim.sourceRef == Some(p.proposal.sourceRef))
            && (p.proposal.sourceRef == "" ==> claim.sourceRef == p.proposal.claim.sourceRef)
            && var last := Run(g, after, later).0;
            && id < |last.proposals| && last.proposals[id] == p && after.claims <= last.claims)
  {
    hide Run;
    var (after, r) := Approve(db, id, who, now);
    if r.Success? {
      DecidedOnce(g, after, later, id);
      RunKeepsRows(g, after, later);
    }
  }
}
