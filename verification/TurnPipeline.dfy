/** The write pipeline of one turn and the later human decisions on its proposals. The gates of the Rust
    engine are parameters. */
module TurnPipeline {
  import opened Prelude
  import opened Claims

  datatype Provenance = Provenance(lockedToTentative: bool, autoConfirmEligible: bool)

  datatype Conflict = NoConflict | ConflictGroup(claimIds: seq<nat>)

  datatype Approval = Approved | Denied(reason: string) | EscalatedTo(approvalClass: string)

  datatype Taint = Allow | Block(reason: string) | Escalate(taintClass: string)

  datatype Proposal = Proposal(claim: ClaimData, sourceRef: string)

  /** The gates a claim passes, in the order they are asked. */
  datatype Gates = Gates(
    validSchema: Proposal -> bool,
    provenance: Proposal -> Provenance,
    conflicts: (Proposal, seq<ClaimData>) -> Conflict,
    approval: (string, Sensitivity) -> Approval)

  datatype ProposalStatus = Pending | Confirmed | Rejected

  datatype StoredProposal = StoredProposal(
    proposal: Proposal,
    groupId: Option<nat>,
    status: ProposalStatus,
    decidedAt: Option<int>,
    decidedBy: Option<string>,
    rejectionReason: Option<string>)

  datatype Db = Db(claims: seq<ClaimData>, proposals: seq<StoredProposal>, groups: seq<seq<nat>>)

  datatype ClaimResult =
    | RejectedBySchema
    | RejectedBy(reason: string)
    | ProposalCreated(proposalId: nat)
    | Created(claimId: nat)
    | FilteredOut

  // ---------- one claim ----------

  function SourceRef(claim: ClaimData, turnId: string): string {
    if claim.sourceRef.Some? && claim.sourceRef.value != "" then claim.sourceRef.value else turnId
  }

  function GivenProposal(claim: ClaimData, turnId: string): Proposal {
    Proposal(claim, SourceRef(claim, turnId))
  }

  /** The proposal the later gates see: locked to tentative when provenance says so. */
  function EffectiveProposal(g: Gates, claim: ClaimData, turnId: string): Proposal {
    var given := GivenProposal(claim, turnId);
    if g.provenance(given).lockedToTentative then given.(claim := claim.(state := Tentative)) else given
  }

  function About(subject: string): ClaimData -> bool {
    (c: ClaimData) => c.subject == subject && Live(c.state)
  }

  function Preview(content: string): string {
    if |content| <= 200 then content else content[..200]
  }

  function ConflictFor(g: Gates, db: Db, p: Proposal): Conflict {
    g.conflicts(p, Filter(About(p.claim.subject), db.claims))
  }

  function ApprovalFor(g: Gates, p: Proposal): Approval {
    g.approval(Preview(p.claim.content), p.claim.sensitivity)
  }

  /** `dict.fromkeys`: first occurrences, in order. */
  function Dedup(ids: seq<nat>): (r: seq<nat>)
    ensures NoDuplicates(r) && forall x :: x in r <==> x in ids
  {
    if ids == [] then []
    else
      var n := |ids| - 1;
      var front := Dedup(ids[..n]);
      assert ids == ids[..n] + [ids[n]];
      if ids[n] in front then front else front + [ids[n]]
  }

  function NeedsReview(g: Gates, db: Db, claim: ClaimData, taint: Taint, turnId: string): bool {
    var p := EffectiveProposal(g, claim, turnId);
    || ConflictFor(g, db, p).ConflictGroup?
    || !g.provenance(GivenProposal(claim, turnId)).autoConfirmEligible
    || ApprovalFor(g, p).EscalatedTo?
    || taint.Escalate?
  }

  function ToClaim(p: Proposal): ClaimData {
    p.claim.(sourceRef := if p.sourceRef != "" then Some(p.sourceRef) else p.claim.sourceRef)
  }

  function NewProposal(p: Proposal, groupId: Option<nat>): StoredProposal {
    StoredProposal(p, groupId, Pending, None, None, None)
  }

  function ProcessClaim(g: Gates, db: Db, claim: ClaimData, taint: Taint, turnId: string): (Db, ClaimResult) {
    var p := EffectiveProposal(g, claim, turnId);
    if !g.validSchema(GivenProposal(claim, turnId)) then (db, RejectedBySchema)
    else if taint.Block? then (db, RejectedBy(taint.reason))
    else if ApprovalFor(g, p).Denied? then (db, RejectedBy(ApprovalFor(g, p).reason))
    else
      var conflict := ConflictFor(g, db, p);
      var groups := if conflict.ConflictGroup? then db.groups + [Dedup(conflict.claimIds)] else db.groups;
      var groupId := if conflict.ConflictGroup? then Some(|db.groups|) else None;
      if NeedsReview(g, db, claim, taint, turnId) then
        (db.(groups := groups, proposals := db.proposals + [NewProposal(p, groupId)]), ProposalCreated(|db.proposals|))
      else
        (db.(groups := groups, claims := db.claims + [ToClaim(p)]), Created(|db.claims|))
  }

  // ---------- one turn ----------

  function ProcessAll(g: Gates, db: Db, claims: seq<ClaimData>, taint: Taint, turnId: string): (Db, seq<ClaimResult>) {
    if claims == [] then (db, [])
    else
      var n := |claims| - 1;
      var (before, results) := ProcessAll(g, db, claims[..n], taint, turnId);
      var (after, result) := ProcessClaim(g, before, claims[n], taint, turnId);
      (after, results + [result])
  }

  function Filtered(count: nat): seq<ClaimResult> {
    seq(count, i => FilteredOut)
  }

  /** The turn over the claims the sensitivity filter let through and the number it held back. */
  function Finalize(g: Gates, db: Db, allowed: seq<ClaimData>, filteredCount: nat, taint: Taint, turnId: string)
    : (Db, seq<ClaimResult>)
  {
    var (after, results) := ProcessAll(g, db, allowed, taint, turnId);
    (after, results + Filtered(filteredCount))
  }

  // ---------- proposals made directly, and decisions ----------

  datatype DecisionError = UnknownProposal | NotPending | UnknownGroup

  /** A proposal may name any conflict group that exists; the foreign key refuses any other. */
  function Submit(db: Db, p: Proposal, groupId: Option<nat>): (Db, Result<nat, DecisionError>) {
    if groupId.Some? && groupId.value >= |db.groups| then (db, Failure(UnknownGroup))
    else (db.(proposals := db.proposals + [NewProposal(p, groupId)]), Success(|db.proposals|))
  }

  function Approve(db: Db, id: nat, decidedBy: string, now: int): (Db, Result<StoredProposal, DecisionError>) {
    if id >= |db.proposals| then (db, Failure(UnknownProposal))
    else if db.proposals[id].status != Pending then (db, Failure(NotPending))
    else
      var p := db.proposals[id].(status := ProposalStatus.Confirmed, decidedAt := Some(now),
                                 decidedBy := Some(decidedBy));
      (db.(proposals := db.proposals[id := p], claims := db.claims + [ToClaim(p.proposal)]), Success(p))
  }

  function Reject(db: Db, id: nat, decidedBy: string, reason: Option<string>, now: int)
    : (Db, Result<StoredProposal, DecisionError>)
  {
    if id >= |db.proposals| then (db, Failure(UnknownProposal))
    else if db.proposals[id].status != Pending then (db, Failure(NotPending))
    else
      var p := db.proposals[id].(status := Rejected, rejectionReason := reason, decidedAt := Some(now),
                                 decidedBy := Some(decidedBy));
      (db.(proposals := db.proposals[id := p]), Success(p))
  }

  // ---------- the service ----------

  class TurnService {
    const gates: Gates
    var claims: seq<ClaimData>
    var proposals: seq<StoredProposal>
    var groups: seq<seq<nat>>

    function St(): Db
      reads this
    {
      Db(claims, proposals, groups)
    }

    /** Every conflict group belongs to exactly one proposal. */
    ghost predicate Valid()
      reads this
    {
      GroupsOwned(St())
    }

    constructor (gates: Gates)
      ensures this.gates == gates && St() == Db([], [], []) && Valid()
    {
      this.gates := gates;
      claims, proposals, groups := [], [], [];
    }

    /** Called by the turn, and for a proposal made directly. Group ownership survives exactly when nothing is added
        or the proposal names no group. */
    method CreateProposal(p: Proposal, groupId: Option<nat>) returns (r: Result<nat, DecisionError>)
      modifies this`proposals
      ensures (St(), r) == Submit(old(St()), p, groupId)
      ensures r.Success? <==> (groupId == None || groupId.value < |groups|)
      ensures old(Valid()) ==> (Valid() <==> r.Failure? || groupId == None)
    {
      SubmitKeepsGroupsIff(St(), p, groupId);
      hide GroupsOwned;
      if groupId.Some? && groupId.value >= |groups| {
        return Failure(UnknownGroup);
      }
      r := Success(|proposals|);
      proposals := proposals + [NewProposal(p, groupId)];
    }

    /** The body of the loop over the allowed claims. */
    method HandleClaim(claim: ClaimData, taint: Taint, turnId: string) returns (result: ClaimResult)
      modifies this
      ensures (St(), result) == ProcessClaim(gates, old(St()), claim, taint, turnId)
      ensures old(Valid()) ==> Valid()
    {
      ClaimPreserves(gates, St(), claim, taint, turnId);
      hide GroupsOwned;
      var proposal := GivenProposal(claim, turnId);
      if !gates.validSchema(proposal) {
        return RejectedBySchema;
      }
      var g2 := gates.provenance(proposal);
      if g2.lockedToTentative {
        proposal := proposal.(claim := claim.(state := Tentative));
      }
      var existing := Filter(About(proposal.claim.subject), claims);
      var conflict := gates.conflicts(proposal, existing);
      var approval := gates.approval(Preview(proposal.claim.content), proposal.claim.sensitivity);
      if taint.Block? {
        return RejectedBy(taint.reason);
      }
      if approval.Denied? {
        return RejectedBy(approval.reason);
      }
      var groupId := None;
      if conflict.ConflictGroup? {
        groupId := Some(|groups|);
        groups := groups + [Dedup(conflict.claimIds)];
      }
      var requiresHitl := groupId.Some? || !g2.autoConfirmEligible || approval.EscalatedTo? || taint.Escalate?;
      if requiresHitl {
        var created := CreateProposal(proposal, groupId);
        result := ProposalCreated(created.value);
      } else {
        result := Created(|claims|);
        claims := claims + [ToClaim(proposal)];
      }
    }

    method FinalizeTurn(allowed: seq<ClaimData>, filteredCount: nat, taint: Taint, turnId: string)
      returns (results: seq<ClaimResult>)
      modifies this
      ensures (St(), results) == Finalize(gates, old(St()), allowed, filteredCount, taint, turnId)
      ensures old(Valid()) ==> Valid()
    {
      StepPreserves(gates, St(), Turn(allowed, filteredCount, taint, turnId));
      hide GroupsOwned;
      hide ProcessClaim;
      results := [];
      for i := 0 to |allowed|
        invariant (St(), results) == ProcessAll(gates, old(St()), allowed[..i], taint, turnId)
      {
        assert allowed[..i + 1][..i] == allowed[..i] && allowed[..i + 1][i] == allowed[i];
        var result := HandleClaim(allowed[i], taint, turnId);
        results := results + [result];
      }
      assert allowed[..|allowed|] == allowed;
      ghost var processed := results;
      for filteredIndex := 0 to filteredCount
        invariant results == processed + Filtered(filteredIndex)
      {
        assert Filtered(filteredIndex + 1) == Filtered(filteredIndex) + [FilteredOut];
        results := results + [FilteredOut];
      }
    }

    method ApproveProposal(id: nat, decidedBy: string, now: int) returns (r: Result<StoredProposal, DecisionError>)
      modifies this
      ensures (St(), r) == Approve(old(St()), id, decidedBy, now)
      ensures old(Valid()) ==> Valid()
    {
      StepPreserves(gates, St(), ApproveStep(id, decidedBy, now));
      hide GroupsOwned;
      if id >= |proposals| {
        return Failure(UnknownProposal);
      }
      if proposals[id].status != Pending {
        return Failure(NotPending);
      }
      var p := proposals[id].(status := ProposalStatus.Confirmed, decidedAt := Some(now), decidedBy := Some(decidedBy));
      proposals := proposals[id := p];
      claims := claims + [ToClaim(p.proposal)];
      r := Success(p);
    }

    method RejectProposal(id: nat, decidedBy: string, reason: Option<string>, now: int)
      returns (r: Result<StoredProposal, DecisionError>)
      modifies this
      ensures (St(), r) == Reject(old(St()), id, decidedBy, reason, now)
      ensures old(Valid()) ==> Valid()
    {
      StepPreserves(gates, St(), RejectStep(id, decidedBy, reason, now));
      hide GroupsOwned;
      if id >= |proposals| {
        return Failure(UnknownProposal);
      }
      if proposals[id].status != Pending {
        return Failure(NotPending);
      }
      var p := proposals[id].(status := Rejected, rejectionReason := reason, decidedAt := Some(now),
                              decidedBy := Some(decidedBy));
      proposals := proposals[id := p];
      r := Success(p);
    }
  }

  // ---------- gate soundness ----------

  /** Every gate let the claim pass: its schema is valid, its provenance eligible, it meets no conflict, and
      neither approval nor taint blocks, denies or escalates it. */
  predicate PassesEveryGate(g: Gates, db: Db, claim: ClaimData, taint: Taint, turnId: string) {
    var p := EffectiveProposal(g, claim, turnId);
    && g.validSchema(GivenProposal(claim, turnId)) && g.provenance(GivenProposal(claim, turnId)).autoConfirmEligible
    && ConflictFor(g, db, p).NoConflict? && ApprovalFor(g, p).Approved? && taint.Allow?
  }

  /** What is stored of a claim is the claim itself, tentative when provenance locks it, with the turn as its source
      when it names none. */
  lemma StoredIsTheClaim(g: Gates, claim: ClaimData, turnId: string)
    ensures
      var stored := ToClaim(EffectiveProposal(g, claim, turnId));
      && stored == claim.(state := stored.state, sourceRef := stored.sourceRef)
      && stored.state == (if g.provenance(GivenProposal(claim, turnId)).lockedToTentative then Tentative
                          else claim.state)
      && (turnId != "" ==> stored.sourceRef == Some(SourceRef(claim, turnId)))
  {
  }

  /** What a result of a turn promises about the database `after`, for the claim that met the database `met`. */
  ghost predicate Honoured(g: Gates, met: Db, after: Db, claim: ClaimData, taint: Taint, turnId: string,
                           result: ClaimResult)
  {
    var p := EffectiveProposal(g, claim, turnId);
    && (result.Created? <==> PassesEveryGate(g, met, claim, taint, turnId))
    && (result.Created? ==> result.claimId < |after.claims| && after.claims[result.claimId] == ToClaim(p))
    && (result.ProposalCreated? ==>
          && result.proposalId < |after.proposals|
          && HoldsProposal(after, after.proposals[result.proposalId], p, ConflictFor(g, met, p)))
  }

  /** The stored proposal is `p`, and its group, if there is a conflict, lists the conflicting claims once each. */
  ghost predicate HoldsProposal(db: Db, stored: StoredProposal, p: Proposal, conflict: Conflict) {
    && stored.proposal == p
    && (stored.groupId.Some? <==> conflict.ConflictGroup?)
    && (stored.groupId.Some? ==>
          && stored.groupId.value < |db.groups|
          && NoDuplicates(db.groups[stored.groupId.value])
          && forall id :: id in db.groups[stored.groupId.value] <==> id in conflict.claimIds)
  }

  /** Rows are only added. */
  predicate Extends(db: Db, after: Db) {
    db.claims <= after.claims && db.proposals <= after.proposals && db.groups <= after.groups
  }

  lemma OneClaimHonoured(g: Gates, db: Db, claim: ClaimData, taint: Taint, turnId: string)
    ensures var (after, result) := ProcessClaim(g, db, claim, taint, turnId);
            && Extends(db, after)
            && Honoured(g, db, after, claim, taint, turnId, result)
            && (result.ProposalCreated? ==> after.proposals[result.proposalId].status == Pending)
            && (result.RejectedBy? || result.RejectedBySchema? ==> after == db)
  {
    hide EffectiveProposal, GivenProposal, ConflictFor, ApprovalFor, ToClaim;
  }

  lemma HonouredLater(g: Gates, met: Db, db: Db, after: Db, claim: ClaimData, taint: Taint, turnId: string,
                      result: ClaimResult)
    requires Honoured(g, met, db, claim, taint, turnId, result) && Extends(db, after)
    ensures Honoured(g, met, after, claim, taint, turnId, result)
  {
    hide EffectiveProposal, PassesEveryGate, ConflictFor, ToClaim;
  }

  lemma {:induction false} ResultsHonoured(g: Gates, db: Db, claims: seq<ClaimData>, taint: Taint, turnId: string,
                                           i: nat)
    requires i < |claims|
    ensures
      var met := ProcessAll(g, db, claims[..i], taint, turnId).0;
      var (after, results) := ProcessAll(g, db, claims, taint, turnId);
      && |results| == |claims| && Extends(met, after)
      && Honoured(g, met, after, claims[i], taint, turnId, results[i])
    decreases |claims|
  {
    hide Honoured, ProcessClaim;
    var n := |claims| - 1;
    var (before, results) := ProcessAll(g, db, claims[..n], taint, turnId);
    var (after, result) := ProcessClaim(g, before, claims[n], taint, turnId);
    ResultsCount(g, db, claims[..n], taint, turnId);
    OneClaimHonoured(g, before, claims[n], taint, turnId);
    if i == n {
    } else {
      var met := ProcessAll(g, db, claims[..i], taint, turnId).0;
      assert claims[..n][..i] == claims[..i];
      ResultsHonoured(g, db, claims[..n], taint, turnId, i);
      HonouredLater(g, met, before, after, claims[i], taint, turnId, results[i]);
    }
  }

  lemma {:induction false} ResultsCount(g: Gates, db: Db, claims: seq<ClaimData>, taint: Taint, turnId: string)
    ensures |ProcessAll(g, db, claims, taint, turnId).1| == |claims|
  {
    hide ProcessClaim;
    if claims == [] {
    } else {
      ResultsCount(g, db, claims[..|claims| - 1], taint, turnId);
    }
  }

  /** In every turn, each allowed claim is stored without review exactly when it passed every gate at the database it
      met, with the claims before it in the turn already stored, tentatively when provenance locks it; and the claim or
      the proposal it was reported as is what is in the database at the end of the turn. */
  lemma CreatedIffEveryGatePassed(g: Gates, db: Db, allowed: seq<ClaimData>, filteredCount: nat, taint: Taint,
                                  turnId: string, i: nat)
    requires i < |allowed|
    ensures
      var met := ProcessAll(g, db, allowed[..i], taint, turnId).0;
      var (after, results) := Finalize(g, db, allowed, filteredCount, taint, turnId);
      && i < |results| && Honoured(g, met, after, allowed[i], taint, turnId, results[i])
      && (results[i].Created? ==>
            && results[i].claimId < |after.claims|
            && var stored := after.claims[results[i].claimId];
            && stored == allowed[i].(state := stored.state, sourceRef := stored.sourceRef)
            && stored.state == (if g.provenance(GivenProposal(allowed[i], turnId)).lockedToTentative then Tentative
                                else allowed[i].state)
            && (turnId != "" ==> stored.sourceRef == Some(SourceRef(allowed[i], turnId))))
  {
    hide ProcessAll, PassesEveryGate, HoldsProposal, ToClaim, EffectiveProposal, GivenProposal, SourceRef;
    StoredIsTheClaim(g, allowed[i], turnId);
    ResultsHonoured(g, db, allowed, taint, turnId, i);
  }

  predicate IsCreated(r: ClaimResult) {
    r.Created?
  }

  predicate IsProposed(r: ClaimResult) {
    r.ProposalCreated?
  }

  predicate IsConfirmed(p: StoredProposal) {
    p.status == ProposalStatus.Confirmed
  }

  function ClaimOf(p: StoredProposal): ClaimData {
    ToClaim(p.proposal)
  }

  function ForGroup(group: nat): StoredProposal -> bool {
    (p: StoredProposal) => p.groupId == Some(group)
  }

  // ---------- conservation over a turn ----------

  /** Every allowed claim gets one result, each created result is one new claim, each proposed result one new
      pending proposal, and nothing stored before is changed. */
  lemma {:induction false} ProcessAllConserves(g: Gates, db: Db, claims: seq<ClaimData>, taint: Taint, turnId: string)
    ensures
      var (after, results) := ProcessAll(g, db, claims, taint, turnId);
      && |results| == |claims|
      && db.claims <= after.claims && db.proposals <= after.proposals && db.groups <= after.groups
      && |after.claims| == |db.claims| + Count(IsCreated, results)
      && |after.proposals| == |db.proposals| + Count(IsProposed, results)
      && Count(IsConfirmed, after.proposals) == Count(IsConfirmed, db.proposals)
  {
    if claims == [] {
    } else {
      var n := |claims| - 1;
      ProcessAllConserves(g, db, claims[..n], taint, turnId);
      var (before, results) := ProcessAll(g, db, claims[..n], taint, turnId);
      ClaimConserves(g, before, claims[n], taint, turnId);
      var (after, result) := ProcessClaim(g, before, claims[n], taint, turnId);
      CountSnoc(IsCreated, results, result);
      CountSnoc(IsProposed, results, result);
    }
  }

  lemma ClaimConserves(g: Gates, db: Db, claim: ClaimData, taint: Taint, turnId: string)
    ensures
      var (after, result) := ProcessClaim(g, db, claim, taint, turnId);
      && db.claims <= after.claims && db.proposals <= after.proposals && db.groups <= after.groups
      && |after.claims| == |db.claims| + (if result.Created? then 1 else 0)
      && |after.proposals| == |db.proposals| + (if result.ProposalCreated? then 1 else 0)
      && Count(IsConfirmed, after.proposals) == Count(IsConfirmed, db.proposals)
  {
    hide EffectiveProposal, GivenProposal, NeedsReview, ConflictFor, ApprovalFor, Dedup;
    var (after, result) := ProcessClaim(g, db, claim, taint, turnId);
    if result.ProposalCreated? {
      CountSnoc(IsConfirmed, db.proposals, after.proposals[|db.proposals|]);
    }
  }

  lemma TurnConserves(g: Gates, db: Db, allowed: seq<ClaimData>, filteredCount: nat, taint: Taint, turnId: string)
    ensures
      var (after, results) := Finalize(g, db, allowed, filteredCount, taint, turnId);
      && |results| == |allowed| + filteredCount
      && |after.claims| == |db.claims| + Count(IsCreated, results)
      && |after.proposals| == |db.proposals| + Count(IsProposed, results)
  {
    hide ProcessAll;
    ProcessAllConserves(g, db, allowed, taint, turnId);
    var results := ProcessAll(g, db, allowed, taint, turnId).1;
    FilterAppend(IsCreated, results, Filtered(filteredCount));
    FilterAppend(IsProposed, results, Filtered(filteredCount));
    FilterNone(IsCreated, Filtered(filteredCount));
    FilterNone(IsProposed, Filtered(filteredCount));
  }

  // ---------- conflict groups ----------

  /** Every conflict group is referenced by exactly one proposal, no proposal names a missing group, and a
      group lists no claim twice. */
  ghost predicate GroupsOwned(db: Db) {
    && (forall group: nat | group < |db.groups| :: Count(ForGroup(group), db.proposals) == 1
                                                   && NoDuplicates(db.groups[group]))
    && (forall p | p in db.proposals && p.groupId.Some? :: p.groupId.value < |db.groups|)
  }

  lemma ClaimKeepsGroups(g: Gates, db: Db, claim: ClaimData, taint: Taint, turnId: string)
    requires GroupsOwned(db)
    ensures GroupsOwned(ProcessClaim(g, db, claim, taint, turnId).0)
  {
    hide EffectiveProposal, GivenProposal, ApprovalFor, ConflictFor, Count;
    var (after, result) := ProcessClaim(g, db, claim, taint, turnId);
    if result.ProposalCreated? {
      var p := after.proposals[|db.proposals|];
      assert after.proposals == db.proposals + [p];
      forall group: nat | group < |after.groups|
        ensures Count(ForGroup(group), after.proposals) == 1 && NoDuplicates(after.groups[group])
      {
        CountSnoc(ForGroup(group), db.proposals, p);
        if group == |db.groups| {
          FilterNone(ForGroup(group), db.proposals);
          NothingCounted(ForGroup(group), db.proposals);
        }
      }
    }
  }

  lemma NothingCounted<T>(p: T -> bool, s: seq<T>)
    requires Filter(p, s) == []
    ensures Count(p, s) == 0
  {
  }

  lemma {:induction false} ProcessAllKeepsGroups(g: Gates, db: Db, claims: seq<ClaimData>, taint: Taint, turnId: string)
    requires GroupsOwned(db)
    ensures GroupsOwned(ProcessAll(g, db, claims, taint, turnId).0)
  {
    hide GroupsOwned, ProcessClaim;
    if claims == [] {
    } else {
      var n := |claims| - 1;
      ProcessAllKeepsGroups(g, db, claims[..n], taint, turnId);
      ClaimKeepsGroups(g, ProcessAll(g, db, claims[..n], taint, turnId).0, claims[n], taint, turnId);
    }
  }

  // ---------- whole runs ----------

  datatype Step =
    | Turn(allowed: seq<ClaimData>, filteredCount: nat, taint: Taint, turnId: string)
    | SubmitStep(proposal: Proposal, groupId: Option<nat>)
    | ApproveStep(id: nat, decidedBy: string, now: int)
    | RejectStep(id: nat, decidedBy: string, reason: Option<string>, now: int)

  function Apply(g: Gates, db: Db, step: Step): (Db, seq<ClaimResult>) {
    match step
    case Turn(allowed, filteredCount, taint, turnId) => Finalize(g, db, allowed, filteredCount, taint, turnId)
    case SubmitStep(p, groupId) => (Submit(db, p, groupId).0, [])
    case ApproveStep(id, who, now) => (Approve(db, id, who, now).0, [])
    case RejectStep(id, who, reason, now) => (Reject(db, id, who, reason, now).0, [])
  }

  /** The database after a run, and every result reported on the way. */
  function Run(g: Gates, db: Db, steps: seq<Step>): (Db, seq<ClaimResult>)
    decreases |steps|
  {
    if steps == [] then (db, [])
    else
      var (next, results) := Apply(g, db, steps[0]);
      var (last, more) := Run(g, next, steps[1..]);
      (last, results + more)
  }

  lemma DecisionKeepsGroups(db: Db, id: nat, p: StoredProposal, claims: seq<ClaimData>)
    requires GroupsOwned(db) && id < |db.proposals| && p.groupId == db.proposals[id].groupId
    ensures GroupsOwned(db.(proposals := db.proposals[id := p], claims := claims))
  {
    hide Count;
    forall group: nat | group < |db.groups|
      ensures Count(ForGroup(group), db.proposals[id := p]) == 1
    {
      CountUpdate(ForGroup(group), db.proposals, id, p);
    }
    forall q | q in db.proposals[id := p] && q.groupId.Some?
      ensures q.groupId.value < |db.groups|
    {
      assert db.proposals[id] in db.proposals;
    }
  }

  /** A proposal made directly joins a group that already has its proposal. */
  predicate JoinsGroup(db: Db, step: Step) {
    step.SubmitStep? && step.groupId.Some? && step.groupId.value < |db.groups|
  }

  lemma SubmitKeepsGroupsIff(db: Db, p: Proposal, groupId: Option<nat>)
    ensures GroupsOwned(db) ==>
              (GroupsOwned(Submit(db, p, groupId).0) <==> Submit(db, p, groupId).1.Failure? || groupId == None)
  {
    hide Count;
    if GroupsOwned(db) && Submit(db, p, groupId).1.Success? {
      var added := NewProposal(p, groupId);
      forall group: nat | group < |db.groups|
        ensures Count(ForGroup(group), db.proposals + [added])
             == Count(ForGroup(group), db.proposals) + if groupId == Some(group) then 1 else 0
      {
        CountSnoc(ForGroup(group), db.proposals, added);
      }
      if groupId.Some? {
        assert Count(ForGroup(groupId.value), db.proposals + [added]) == 2;
      }
    }
  }

  lemma StepKeepsGroups(g: Gates, db: Db, step: Step)
    requires GroupsOwned(db) && !JoinsGroup(db, step)
    ensures GroupsOwned(Apply(g, db, step).0)
  {
    hide GroupsOwned, ProcessAll;
    match step
    case Turn(allowed, filteredCount, taint, turnId) => ProcessAllKeepsGroups(g, db, allowed, taint, turnId);
    case SubmitStep(p, groupId) => SubmitKeepsGroupsIff(db, p, groupId);
    case ApproveStep(id, who, now) =>
      if Approve(db, id, who, now).1.Success? {
        DecisionKeepsGroups(db, id, Approve(db, id, who, now).1.value, Approve(db, id, who, now).0.claims);
      }
    case RejectStep(id, who, reason, now) =>
      if Reject(db, id, who, reason, now).1.Success? {
        DecisionKeepsGroups(db, id, Reject(db, id, who, reason, now).1.value, db.claims);
      }
  }

  /** What one step does to the numbers of claims, results and confirmed proposals. */
  lemma StepConserves(g: Gates, db: Db, step: Step)
    ensures
      var (after, results) := Apply(g, db, step);
      |after.claims| - Count(IsConfirmed, after.proposals)
        == |db.claims| - Count(IsConfirmed, db.proposals) + Count(IsCreated, results)
  {
    hide ProcessAll;
    match step
    case Turn(allowed, filteredCount, taint, turnId) =>
      TurnConserves(g, db, allowed, filteredCount, taint, turnId);
      ProcessAllConserves(g, db, allowed, taint, turnId);
    case SubmitStep(p, groupId) => CountSnoc(IsConfirmed, db.proposals, NewProposal(p, groupId));
    case ApproveStep(id, who, now) =>
      if Approve(db, id, who, now).1.Success? {
        CountUpdate(IsConfirmed, db.proposals, id, Approve(db, id, who, now).1.value);
      }
    case RejectStep(id, who, reason, now) =>
      if Reject(db, id, who, reason, now).1.Success? {
        CountUpdate(IsConfirmed, db.proposals, id, Reject(db, id, who, reason, now).1.value);
      }
  }

  lemma {:induction false} RunConserves(g: Gates, db: Db, steps: seq<Step>)
    ensures
      var (after, results) := Run(g, db, steps);
      |after.claims| - Count(IsConfirmed, after.proposals)
        == |db.claims| - Count(IsConfirmed, db.proposals) + Count(IsCreated, results)
    decreases |steps|
  {
    hide Apply, Count;
    if steps == [] {
    } else {
      var (next, results) := Apply(g, db, steps[0]);
      StepConserves(g, db, steps[0]);
      RunConserves(g, next, steps[1..]);
      CountAppend(IsCreated, results, Run(g, next, steps[1..]).1);
    }
  }

  lemma ClaimPreserves(g: Gates, db: Db, claim: ClaimData, taint: Taint, turnId: string)
    ensures GroupsOwned(db) ==> GroupsOwned(ProcessClaim(g, db, claim, taint, turnId).0)
  {
    hide GroupsOwned, ProcessClaim;
    if GroupsOwned(db) {
      ClaimKeepsGroups(g, db, claim, taint, turnId);
    }
  }

  lemma StepPreserves(g: Gates, db: Db, step: Step)
    ensures GroupsOwned(db) && !JoinsGroup(db, step) ==> GroupsOwned(Apply(g, db, step).0)
  {
    hide GroupsOwned, Apply;
    if GroupsOwned(db) && !JoinsGroup(db, step) {
      StepKeepsGroups(g, db, step);
    }
  }

  // ---------- what a run keeps ----------

  /** A proposal keeps what it proposes and its group through every step. */
  ghost predicate KeepsRows(db: Db, after: Db) {
    && db.claims <= after.claims && db.groups <= after.groups && |db.proposals| <= |after.proposals|
    && forall id | 0 <= id < |db.proposals| ::
         && after.proposals[id].proposal == db.proposals[id].proposal
         && after.proposals[id].groupId == db.proposals[id].groupId
  }

  lemma StepKeepsRows(g: Gates, db: Db, step: Step)
    ensures KeepsRows(db, Apply(g, db, step).0)
  {
    hide ProcessAll, ToClaim;
    if step.Turn? {
      ProcessAllConserves(g, db, step.allowed, step.taint, step.turnId);
    }
  }

  lemma {:induction false} RunKeepsRows(g: Gates, db: Db, steps: seq<Step>)
    ensures KeepsRows(db, Run(g, db, steps).0)
    decreases |steps|
  {
    hide Apply;
    if steps == [] {
    } else {
      StepKeepsRows(g, db, steps[0]);
      RunKeepsRows(g, Apply(g, db, steps[0]).0, steps[1..]);
    }
  }

  /** Over the whole run no proposal made directly joins a group. */
  predicate NeverJoins(g: Gates, db: Db, steps: seq<Step>)
    decreases |steps|
  {
    steps == [] || (!JoinsGroup(db, steps[0]) && NeverJoins(g, Apply(g, db, steps[0]).0, steps[1..]))
  }

  lemma GroupCountGrows(db: Db, after: Db, group: nat)
    requires KeepsRows(db, after)
    ensures Count(ForGroup(group), db.proposals) <= Count(ForGroup(group), after.proposals)
  {
    hide Count;
    var n := |db.proposals|;
    CountPointwise(ForGroup(group), after.proposals[..n], db.proposals);
    assert after.proposals == after.proposals[..n] + after.proposals[n..];
    CountAppend(ForGroup(group), after.proposals[..n], after.proposals[n..]);
  }

  /** A group that has two proposals has them for good. */
  lemma JoinedForGood(g: Gates, db: Db, step: Step, later: seq<Step>)
    requires GroupsOwned(db) && JoinsGroup(db, step)
    ensures !GroupsOwned(Run(g, Apply(g, db, step).0, later).0)
  {
    hide Run, Count;
    var group, next := step.groupId.value, Apply(g, db, step).0;
    var last := Run(g, next, later).0;
    CountSnoc(ForGroup(group), db.proposals, NewProposal(step.proposal, step.groupId));
    RunKeepsRows(g, next, later);
    GroupCountGrows(next, last, group);
    assert Count(ForGroup(group), last.proposals) >= 2;
  }

  /** Exactly when every conflict group belongs to exactly one proposal after a run: no proposal made directly named a
      group that exists. */
  lemma {:induction false} RunKeepsGroups(g: Gates, db: Db, steps: seq<Step>)
    requires GroupsOwned(db)
    ensures GroupsOwned(Run(g, db, steps).0) <==> NeverJoins(g, db, steps)
    decreases |steps|
  {
    hide GroupsOwned, Apply, JoinsGroup;
    if steps == [] {
    } else if JoinsGroup(db, steps[0]) {
      JoinedForGood(g, db, steps[0], steps[1..]);
    } else {
      StepKeepsGroups(g, db, steps[0]);
      RunKeepsGroups(g, Apply(g, db, steps[0]).0, steps[1..]);
    }
  }

  const EMPTY: Db := Db([], [], [])

  // ---------- which claims are stored ----------

  /** The claims of a turn that passed every gate at the database they met, as they are stored. */
  function Passing(g: Gates, db: Db, claims: seq<ClaimData>, taint: Taint, turnId: string): seq<ClaimData> {
    if claims == [] then []
    else
      var n := |claims| - 1;
      var met := ProcessAll(g, db, claims[..n], taint, turnId).0;
      Passing(g, db, claims[..n], taint, turnId)
      + if PassesEveryGate(g, met, claims[n], taint, turnId) then [ToClaim(EffectiveProposal(g, claims[n], turnId))]
          else []
  }

  function PassingIn(g: Gates, db: Db, step: Step): seq<ClaimData> {
    match step
    case Turn(allowed, _, taint, turnId) => Passing(g, db, allowed, taint, turnId)
    case _ => []
  }

  function PassingOver(g: Gates, db: Db, steps: seq<Step>): seq<ClaimData>
    decreases |steps|
  {
    if steps == [] then [] else PassingIn(g, db, steps[0]) + PassingOver(g, Apply(g, db, steps[0]).0, steps[1..])
  }

  /** The claims of the confirmed proposals. */
  function ConfirmedClaims(proposals: seq<StoredProposal>): seq<ClaimData> {
    Map(ClaimOf, Filter(IsConfirmed, proposals))
  }

  lemma OneClaimStored(g: Gates, db: Db, claim: ClaimData, taint: Taint, turnId: string)
    ensures
      var after := ProcessClaim(g, db, claim, taint, turnId).0;
      && after.claims == db.claims + (if PassesEveryGate(g, db, claim, taint, turnId)
                                      then [ToClaim(EffectiveProposal(g, claim, turnId))] else [])
      && ConfirmedClaims(after.proposals) == ConfirmedClaims(db.proposals)
  {
    hide EffectiveProposal, GivenProposal, ConflictFor, ApprovalFor, ToClaim, Dedup, Map;
    var (after, result) := ProcessClaim(g, db, claim, taint, turnId);
    assert db.claims + [] == db.claims;
    if result.ProposalCreated? {
      var p := after.proposals[|db.proposals|];
      FilterAppend(IsConfirmed, db.proposals, [p]);
      assert Filter(IsConfirmed, db.proposals) + [] == Filter(IsConfirmed, db.proposals);
    }
  }

  lemma {:induction false} TurnStores(g: Gates, db: Db, claims: seq<ClaimData>, taint: Taint, turnId: string)
    ensures
      var after := ProcessAll(g, db, claims, taint, turnId).0;
      && after.claims == db.claims + Passing(g, db, claims, taint, turnId)
      && ConfirmedClaims(after.proposals) == ConfirmedClaims(db.proposals)
  {
    hide ProcessClaim, ConfirmedClaims, PassesEveryGate, EffectiveProposal, ToClaim;
    if claims == [] {
      assert db.claims + [] == db.claims;
    } else {
      var n := |claims| - 1;
      TurnStores(g, db, claims[..n], taint, turnId);
      OneClaimStored(g, ProcessAll(g, db, claims[..n], taint, turnId).0, claims[n], taint, turnId);
    }
  }

  /** What a decision adds to the confirmed claims. */
  lemma DecisionConfirms(proposals: seq<StoredProposal>, id: nat, p: StoredProposal)
    requires id < |proposals| && !IsConfirmed(proposals[id])
    ensures multiset(ConfirmedClaims(proposals[id := p]))
         == multiset(ConfirmedClaims(proposals)) + if IsConfirmed(p) then multiset{ClaimOf(p)} else multiset{}
  {
    hide Map, Filter, ClaimOf;
    var after := proposals[id := p];
    var before := Filter(IsConfirmed, proposals);
    assert after[..id] + after[id + 1..] == proposals[..id] + proposals[id + 1..];
    FilterDrop(IsConfirmed, proposals, id);
    FilterDrop(IsConfirmed, after, id);
    if IsConfirmed(p) {
      MapSameElements(ClaimOf, Filter(IsConfirmed, after), before + [p]);
      assert Map(ClaimOf, before + [p]) == Map(ClaimOf, before) + [ClaimOf(p)];
    } else {
      MapSameElements(ClaimOf, Filter(IsConfirmed, after), before);
    }
  }

  lemma PendingConfirmsNothing(proposals: seq<StoredProposal>, p: StoredProposal)
    requires !IsConfirmed(p)
    ensures ConfirmedClaims(proposals + [p]) == ConfirmedClaims(proposals)
  {
    FilterAppend(IsConfirmed, proposals, [p]);
    assert Filter(IsConfirmed, [p]) == [];
    assert Filter(IsConfirmed, proposals) + [] == Filter(IsConfirmed, proposals);
  }

  lemma StepStores(g: Gates, db: Db, step: Step)
    ensures
      var after := Apply(g, db, step).0;
      multiset(after.claims) + multiset(ConfirmedClaims(db.proposals))
        == multiset(db.claims) + multiset(PassingIn(g, db, step)) + multiset(ConfirmedClaims(after.proposals))
  {
    hide ProcessAll, ConfirmedClaims, Passing, ToClaim;
    match step
    case Turn(allowed, filteredCount, taint, turnId) => TurnStores(g, db, allowed, taint, turnId);
    case SubmitStep(p, groupId) => PendingConfirmsNothing(db.proposals, NewProposal(p, groupId));
    case ApproveStep(id, who, now) =>
      if Approve(db, id, who, now).1.Success? {
        DecisionConfirms(db.proposals, id, Approve(db, id, who, now).1.value);
      }
    case RejectStep(id, who, reason, now) =>
      if Reject(db, id, who, reason, now).1.Success? {
        DecisionConfirms(db.proposals, id, Reject(db, id, who, reason, now).1.value);
      }
  }

  lemma Telescope<T>(a0: multiset<T>, a1: multiset<T>, a2: multiset<T>, c0: multiset<T>, c1: multiset<T>,
                     c2: multiset<T>,
                     p: multiset<T>, r: multiset<T>)
    requires a1 + c0 == a0 + p + c1 && a2 + c1 == a1 + r + c2
    ensures a2 + c0 == a0 + (p + r) + c2
  {
    assert a2 + c0 == (a2 + c1) + (a1 + c0) - (a1 + c1);
    assert a0 + (p + r) + c2 == (a1 + r + c2) + (a0 + p + c1) - (a1 + c1);
  }

  lemma {:induction false} RunStores(g: Gates, db: Db, steps: seq<Step>)
    ensures
      var after := Run(g, db, steps).0;
      multiset(after.claims) + multiset(ConfirmedClaims(db.proposals))
        == multiset(db.claims) + multiset(PassingOver(g, db, steps)) + multiset(ConfirmedClaims(after.proposals))
    decreases |steps|
  {
    hide Apply, ConfirmedClaims, PassingIn;
    if steps == [] {
    } else {
      var next := Apply(g, db, steps[0]).0;
      StepStores(g, db, steps[0]);
      RunStores(g, next, steps[1..]);
      assert PassingOver(g, db, steps) == PassingIn(g, db, steps[0]) + PassingOver(g, next, steps[1..]);
      var last := Run(g, next, steps[1..]).0;
      Telescope(multiset(db.claims), multiset(next.claims), multiset(last.claims),
                multiset(ConfirmedClaims(db.proposals)), multiset(ConfirmedClaims(next.proposals)),
                multiset(ConfirmedClaims(last.proposals)),
                multiset(PassingIn(g, db, steps[0])), multiset(PassingOver(g, next, steps[1..])));
    }
  }

  /** Over every run of turns, direct proposals and decisions, the claims stored are exactly, as a multiset, the
      claims that passed every gate at the database they met and the claims of the confirmed proposals. They number
      the `created` results and the confirmed proposals; and every conflict group belongs to exactly one proposal if
      and only if no proposal made directly named a group. */
  lemma EveryClaimAccountedFor(g: Gates, steps: seq<Step>)
    ensures
      var (db, results) := Run(g, EMPTY, steps);
      && multiset(db.claims) == multiset(PassingOver(g, EMPTY, steps)) + multiset(ConfirmedClaims(db.proposals))
      && |db.claims| == Count(IsCreated, results) + Count(IsConfirmed, db.proposals)
      && (NeverJoins(g, EMPTY, steps) <==> GroupsOwned(db))
  {
    hide Run, PassingOver, NeverJoins;
    RunStores(g, EMPTY, steps);
    var db := Run(g, EMPTY, steps).0;
    assert ConfirmedClaims(EMPTY.proposals) == [];
    assert multiset(db.claims) + multiset(ConfirmedClaims(EMPTY.proposals)) == multiset(db.claims);
    assert multiset(EMPTY.claims) + multiset(PassingOver(g, EMPTY, steps)) == multiset(PassingOver(g, EMPTY, steps));
    RunConserves(g, EMPTY, steps);
    RunKeepsGroups(g, EMPTY, steps);
  }

  /** Gates that let everything through, except that every claim conflicts. */
  const CONTRARY: Gates := Gates(
    p => true, p => Provenance(false, true), (p, existing) => ConflictGroup([]), (preview, sensitivity) => Approved)

  /** A turn puts a conflicting claim up for review; a proposal made directly then shares its group. */
  lemma GroupCanBeShared(claim: ClaimData)
    ensures
      var steps := [Turn([claim], 0, Allow, "turn"), SubmitStep(Proposal(claim, "turn"), Some(0))];
      var db := Run(CONTRARY, EMPTY, steps).0;
      |db.groups| == 1 && Count(ForGroup(0), db.proposals) == 2 && !GroupsOwned(db)
  {
    var turn, submit := Turn([claim], 0, Allow, "turn"), SubmitStep(Proposal(claim, "turn"), Some(0));
    var mid := Apply(CONTRARY, EMPTY, turn).0;
    OneConflict(claim);
    CountSnoc(ForGroup(0), [], mid.proposals[0]);
    CountSnoc(ForGroup(0), mid.proposals, NewProposal(submit.proposal, Some(0)));
    assert [] + mid.proposals == mid.proposals;
    RunOfTwo(CONTRARY, EMPTY, turn, submit);
  }

  lemma RunOfTwo(g: Gates, db: Db, x: Step, y: Step)
    ensures Run(g, db, [x, y]).0 == Apply(g, Apply(g, db, x).0, y).0
  {
    hide Apply;
    assert [x, y][1..] == [y] && [y][1..] == [];
    assert Run(g, Apply(g, db, x).0, [y]).0 == Run(g, Apply(g, Apply(g, db, x).0, y).0, []).0;
  }

  lemma OneConflict(claim: ClaimData)
    ensures
      var mid := Apply(CONTRARY, EMPTY, Turn([claim], 0, Allow, "turn")).0;
      && mid.groups == [[]] && |mid.proposals| == 1
      && mid.proposals[0].groupId == Some(0) && mid.claims == []
  {
    assert [claim][..0] == [];
    assert ProcessAll(CONTRARY, EMPTY, [claim][..0], Allow, "turn") == (EMPTY, []);
  }

  // ---------- review and decision over whole runs ----------

  /** Review changes nothing about a claim, however late it comes: after any further turns and decisions the proposal
      still holds the claim and the group it was created with; while it is pending, approving it stores exactly the
      claim that would have been stored without review, and once decided it cannot be decided again. */
  lemma ReviewStoresSameClaim(g: Gates, db: Db, turn: Step, i: nat, later: seq<Step>, decidedBy: string, now: int)
    requires turn.Turn? && i < |turn.allowed|
    requires i < |Apply(g, db, turn).1| && Apply(g, db, turn).1[i].ProposalCreated?
    ensures
      var id := Apply(g, db, turn).1[i].proposalId;
      var met := ProcessAll(g, db, turn.allowed[..i], turn.taint, turn.turnId).0;
      var p := EffectiveProposal(g, turn.allowed[i], turn.turnId);
      var last := Run(g, Apply(g, db, turn).0, later).0;
      && id < |last.proposals|
      && HoldsProposal(last, last.proposals[id], p, ConflictFor(g, met, p))
      && var (approved, r) := Approve(last, id, decidedBy, now);
      && (r.Success? <==> last.proposals[id].status == Pending)
      && (r.Success? ==>
            && approved.claims == last.claims + [ToClaim(p)]
            && !Approve(approved, id, decidedBy, now).1.Success?
            && !Reject(approved, id, decidedBy, None, now).1.Success?)
  {
    hide ProcessAll, Run, EffectiveProposal, ConflictFor, ToClaim, PassesEveryGate;
    CreatedIffEveryGatePassed(g, db, turn.allowed, turn.filteredCount, turn.taint, turn.turnId, i);
    RunKeepsRows(g, Apply(g, db, turn).0, later);
  }

  lemma StepKeepsDecided(g: Gates, db: Db, step: Step, id: nat)
    requires id < |db.proposals| && db.proposals[id].status != Pending
    ensures id < |Apply(g, db, step).0.proposals| && Apply(g, db, step).0.proposals[id] == db.proposals[id]
  {
    hide ProcessAll;
    if step.Turn? {
      ProcessAllConserves(g, db, step.allowed, step.taint, step.turnId);
    }
  }

  /** A proposal is decided at most once: after its decision no step changes it. */
  lemma {:induction false} DecidedOnce(g: Gates, db: Db, steps: seq<Step>, id: nat)
    requires id < |db.proposals| && db.proposals[id].status != Pending
    ensures id < |Run(g, db, steps).0.proposals| && Run(g, db, steps).0.proposals[id] == db.proposals[id]
    decreases |steps|
  {
    hide Apply;
    if steps == [] {
    } else {
      StepKeepsDecided(g, db, steps[0], id);
      DecidedOnce(g, Apply(g, db, steps[0]).0, steps[1..], id);
    }
  }
}
