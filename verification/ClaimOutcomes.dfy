/** What creating and changing a claim leaves in the claim and in its version log. */
module ClaimOutcomes {
  import opened Prelude
  import opened Claims
  import opened ClaimLog

  /** Why an operation on an existing claim is refused; `None` when it is not. */
  predicate Refused(d: ClaimData, op: Op, e: Error) {
    || (op == Confirm && d.state == Retracted && e == RetractedIsFinal)
    || (op == Confirm && d.state == Confirmed && e == AlreadyConfirmed)
    || (op == Lock && d.userLocked && e == AlreadyLocked)
    || (op == Unlock && !d.userLocked && e == NotLocked)
  }

  /** What an operation does to a claim, field by field; every other field stays. */
  predicate Changed(before: Claim, after: Claim, op: Op, now: int) {
    var d, r := before.data, after.data;
    && after.id == before.id && after.ingestedAt == before.ingestedAt
    && after.supersededAt == (if op == Retract then Some(now) else before.supersededAt)
    && r.state == (if op == Retract then Retracted else if op == Confirm then Confirmed else d.state)
    && r.lifecycle == (if op == Archive then "archived" else d.lifecycle)
    && r.userLocked == (if op == Lock then true else if op == Unlock then false else d.userLocked)
    && r.decayEligible == (if op == Archive || op == Lock then false else op == Unlock || d.decayEligible)
    && r.sensitivity == (if op.SetSensitivity? then op.sensitivity else d.sensitivity)
    && r.handlingPolicy == (if !op.SetSensitivity? then d.handlingPolicy
                            else if op.sensitivity == S4 then S4Isolated
                            else if op.sensitivity == S3 then LocalOnly else CloudOkEncrypted)
    && r == d.(state := r.state, lifecycle := r.lifecycle, userLocked := r.userLocked,
               decayEligible := r.decayEligible, sensitivity := r.sensitivity, handlingPolicy := r.handlingPolicy)
  }

  predicate IsReason(op: Op, text: string) {
    match op
    case Retract => text == "User retracted"
    case Archive => text == "User archived"
    case Confirm => text == "User confirmed"
    case Lock => text == "User locked"
    case Unlock => text == "User unlocked"
    case SetSensitivity(s) =>
      && |text| == 25 && text[..23] == "Sensitivity updated to " && text[23] == 'S'
      && text[24] == (match s case S0 => '0' case S1 => '1' case S2 => '2' case S3 => '3' case S4 => '4')
  }

  lemma OpOutcome(c: Claim, op: Op, now: int)
    ensures ApplyOp(c, op, now).Success? <==> forall e: Error :: !Refused(c.data, op, e)
    ensures ApplyOp(c, op, now).Success? ==> Changed(c, ApplyOp(c, op, now).value, op, now)
    ensures ApplyOp(c, op, now).Failure? ==> Refused(c.data, op, ApplyOp(c, op, now).error)
  {
    assert Refused(c.data, op, RetractedIsFinal) || Refused(c.data, op, AlreadyConfirmed)
        || Refused(c.data, op, AlreadyLocked) || Refused(c.data, op, NotLocked) || ApplyOp(c, op, now).Success?;
  }

  lemma ReasonSpelled(op: Op)
    ensures IsReason(op, ReasonFor(op))
  {
  }

  /** In every reachable state a change of a claim that is not found, or that is refused, changes nothing. Any other
      changes that one claim as the operation says, and adds one version of it behind the log: the next number,
      linked to the digest of the claim as it was, with its own digest, the claim as it is, the reason and the
      author. */
  lemma ChangeOutcome(hash: Claim -> string, steps: seq<Step>, id: nat, op: Op, who: string, now: int)
    ensures
      var s := Run(hash, EMPTY, steps);
      var (after, r) := Change(hash, s, id, op, who, now);
      && (r == Failure(NotFound) <==> id >= |s.claims|)
      && (r.Failure? ==> after == s && (id >= |s.claims| || Refused(s.claims[id].data, op, r.error)))
      && (r.Success? <==> id < |s.claims| && forall e: Error :: !Refused(s.claims[id].data, op, e))
      && (r.Success? ==>
            && |after.claims| == |s.claims| && r.value == after.claims[id]
            && (forall k | 0 <= k < |s.claims| && k != id :: after.claims[k] == s.claims[k])
            && Changed(s.claims[id], after.claims[id], op, now)
            && |after.versions| == |s.versions| + 1 && after.versions[..|s.versions|] == s.versions
            && var v := after.versions[|s.versions|];
            && v == Version(id, Count(OfClaim(id), s.versions) + 1, hash(after.claims[id]), Some(hash(s.claims[id])),
                            after.claims[id], v.changeReason, who)
            && IsReason(op, v.changeReason))
  {
    var s := Run(hash, EMPTY, steps);
    hide Run, ApplyOp, Changed, Refused, NextVersion, ReasonFor, IsReason;
    if id < |s.claims| {
      OpOutcome(s.claims[id], op, now);
      NotFoundNever(s.claims[id], op, now);
      ReasonSpelled(op);
      var r := ApplyOp(s.claims[id], op, now);
      if r.Success? {
        ChangedKeepsId(s.claims[id], r.value, op, now);
        NextIsLinked(hash, steps, id, r.value, ReasonFor(op), who);
      }
    }
  }

  lemma NotFoundNever(c: Claim, op: Op, now: int)
    ensures ApplyOp(c, op, now) != Failure(NotFound)
  {
  }

  lemma ChangedKeepsId(before: Claim, after: Claim, op: Op, now: int)
    requires Changed(before, after, op, now)
    ensures after.id == before.id
  {
  }

  lemma NextIsLinked(hash: Claim -> string, steps: seq<Step>, id: nat, c: Claim, reason: string, who: string)
    requires id < |Run(hash, EMPTY, steps).claims| && c.id == Run(hash, EMPTY, steps).claims[id].id
    ensures
      var s := Run(hash, EMPTY, steps);
      && s.claims[id].id == id
      && NextVersion(hash, s.versions, c, reason, who)
           == Version(id, Count(OfClaim(id), s.versions) + 1, hash(c), Some(hash(s.claims[id])), c, reason, who)
  {
    var s := Run(hash, EMPTY, steps);
    hide Run;
    EmptyInv(hash);
    RunKeepsInv(hash, EMPTY, steps);
    assert ClaimLogged(hash, s, id);
    NewestIsLast(hash, History(s.versions, id));
  }

  lemma EmptyInv(hash: Claim -> string)
    ensures Inv(hash, EMPTY)
  {
  }

  /** In every reachable state creating a claim puts the given data behind the other claims, under the next id and with
      the instant it came in, and its first version, linked to nothing, behind the log. */
  lemma CreateOutcome(hash: Claim -> string, steps: seq<Step>, d: ClaimData, reason: string, who: string, now: int)
    ensures
      var s := Run(hash, EMPTY, steps);
      var (after, c) := Create(hash, s, d, reason, who, now);
      && |after.claims| == |s.claims| + 1 && after.claims[..|s.claims|] == s.claims
      && c == after.claims[|s.claims|] == Claim(|s.claims|, d, now, None)
      && |after.versions| == |s.versions| + 1 && after.versions[..|s.versions|] == s.versions
      && after.versions[|s.versions|] == Version(|s.claims|, 1, hash(c), None, c, reason, who)
  {
    var s := Run(hash, EMPTY, steps);
    hide Run;
    EmptyInv(hash);
    RunKeepsInv(hash, EMPTY, steps);
    hide Inv;
    NoHistory(hash, s);
  }

  /** A retracted claim says when it was retracted, and stays retracted over every later run; no confirmation of it
      ever succeeds. */
  lemma RetractionLasts(hash: Claim -> string, s: State, id: nat, who: string, now: int, later: seq<Step>, at: int)
    requires id < |s.claims|
    ensures
      var (after, r) := Change(hash, s, id, Retract, who, now);
      && r.Success? && after.claims[id].data.state == Retracted && after.claims[id].supersededAt == Some(now)
      && var last := Run(hash, after, later);
      && id < |last.claims| && last.claims[id].data.state == Retracted
      && Change(hash, last, id, Confirm, who, at) == (last, Failure(RetractedIsFinal))
  {
    hide Run, NextVersion;
    RetractedIsFinalState(hash, Change(hash, s, id, Retract, who, now).0, later, id);
  }
}
