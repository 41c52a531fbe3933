/** What one memory write answers and what it leaves behind, read off the answer alone. */
module WriteOutcomes {
  import opened Prelude
  import opened Lanes
  import opened Claims
  import opened FactStore
  import Conflicts
  import Rebound

  // ---------- the circumstances of a write ----------

  predicate FromUser(sourceType: string) {
    sourceType == "user_explicit" || sourceType == "user_confirmed"
  }

  /** Who may write to which lane, and how confident the fact must be. */
  predicate Accepted(lane: Lane, sourceType: string, confidence: real) {
    match lane
    case Identity => FromUser(sourceType) && confidence >= 0.9
    case Preference => FromUser(sourceType) && confidence >= 0.3
    case Evidence => confidence >= 0.5
    case Authorization => FromUser(sourceType) && confidence >= 0.9
    case Procedural => FromUser(sourceType) && confidence >= 0.5
  }

  /** The session came back after an idle gap of more than six hours, now or at an earlier write. */
  predicate ReboundActive(sessions: Rebound.Sessions, sid: Option<string>, now: int) {
    && sid.Some? && sid.value in sessions && now < sessions[sid.value].expiresAt
    && (sessions[sid.value].active
        || (sessions[sid.value].lastTs != 0 && now - sessions[sid.value].lastTs > 21600))
  }

  predicate CappedOut(sessions: Rebound.Sessions, sid: Option<string>, lane: Lane, now: int) {
    lane != Identity && ReboundActive(sessions, sid, now) && sessions[sid.value].count >= 5
  }

  predicate Single(lane: Lane) {
    lane == Identity || lane == Authorization
  }

  /** Row `i` is an active fact on what `d` is about: in the same single-valued lane, on the same subject and, when `d`
      names an attribute, with that attribute. */
  predicate Rival(claims: seq<Claim>, d: ClaimData, i: int) {
    && Single(d.lane) && 0 <= i < |claims|
    && claims[i].data.lane == d.lane && claims[i].data.subject == d.subject
    && claims[i].data.state != Superseded && claims[i].data.state != Retracted
    && (d.attribute.Some? ==> claims[i].data.attribute == d.attribute)
  }

  /** The same value but for whitespace around it and for case. */
  predicate SameValue(a: ClaimData, b: ClaimData) {
    Conflicts.SameText(a.value, b.value)
  }

  /** The given fact, in the lane named by the call if it names one. */
  predicate IsGiven(d: ClaimData, given: ClaimData, lane: Option<Lane>) {
    d == given.(lane := d.lane) && (if lane.Some? then d.lane == lane.value else d.lane == given.lane)
  }

  // ---------- the rows found ----------

  lemma RivalMatches(claims: seq<Claim>, d: ClaimData, i: int)
    ensures Rival(claims, d, i) <==> IsSingle(d.lane) && 0 <= i < |claims| && Matches(d)(claims[i])
  {
  }

  lemma RivalIsSingle(claims: seq<Claim>, d: ClaimData, i: int)
    requires Rival(claims, d, i)
    ensures Single(d.lane) && 0 <= i < |claims|
  {
  }

  lemma RowsFound(claims: seq<Claim>, d: ClaimData)
    ensures |FindRows(claims, d)| > 1 <==> exists i, j :: i < j && Rival(claims, d, i) && Rival(claims, d, j)
    ensures FindRows(claims, d) == [] <==> forall i :: !Rival(claims, d, i)
    ensures forall i | Rival(claims, d, i) && |FindRows(claims, d)| <= 1 :: FindRows(claims, d) == [claims[i]]
  {
    hide Matches, Rival;
    forall i
      ensures Rival(claims, d, i) <==> IsSingle(d.lane) && 0 <= i < |claims| && Matches(d)(claims[i])
    {
      RivalMatches(claims, d, i);
    }
    if IsSingle(d.lane) {
      var picks := FilterSelects(Matches(d), claims);
      if |picks| > 1 {
        assert picks[0] < picks[1] && picks[0] in picks && picks[1] in picks;
      }
      if i, j :| i < j && Rival(claims, d, i) && Rival(claims, d, j) {
        TwoSelected(Matches(d), claims, i, j);
      }
      if picks != [] {
        assert picks[0] in picks && Rival(claims, d, picks[0]);
      }
      forall i | Rival(claims, d, i)
        ensures picks != [] && (|picks| <= 1 ==> FindRows(claims, d) == [claims[i]])
      {
        assert i in picks;
      }
    }
  }

  lemma PolicyAnswer(d: ClaimData)
    ensures CheckWritePolicy(d.lane, SourceCategory(d.sourceType), d.confidence)
         == (if Accepted(d.lane, d.sourceType, d.confidence) then None
             else if d.lane != Evidence && !FromUser(d.sourceType) then Some(SourceNotAllowed)
             else Some(BelowFloor))
  {
  }

  lemma ActiveIff(sessions: Rebound.Sessions, sid: Option<string>, lane: Lane, now: int)
    ensures var decision := Rebound.EvaluateRebound(lane, Rebound.Read(sessions, sid, now));
            && (decision.allowed <==> !CappedOut(sessions, sid, lane, now))
            && (decision.active <==> ReboundActive(sessions, sid, now))
            && (CappedOut(sessions, sid, lane, now) ==> ReboundActive(sessions, sid, now))
  {
  }

  /** Nobody is more trusted than the user, from whom every accepted fact of a single-valued lane comes. */
  lemma Settled(existing: Claim, d: ClaimData)
    requires Single(d.lane) && Accepted(d.lane, d.sourceType, d.confidence)
    ensures
      var r := Resolve(Some(existing), d);
      if SameValue(existing.data, d)
      then r == Conflicts.Resolution(false, false, false, Conflicts.IdenticalValue)
      else r == Conflicts.Resolution(true, true, true, Conflicts.IncomingSupersedes)
  {
    Conflicts.SameTextIff(existing.data.value, d.value);
    hide Conflicts.Normalised, Conflicts.SameText;
  }

  lemma Uncontested(d: ClaimData)
    ensures Resolve(None, d) == Conflicts.Resolution(false, true, false, Conflicts.NoReason)
  {
  }

  // ---------- which answer ----------

  /** Every answer and when it is given. A lane's source or confidence rule refuses first, then the cap of five writes
      of a session in rebound; two active facts on the same matter make the query fail; an equal fact already held
      makes the write unnecessary, a different one is superseded; otherwise the fact is written. */
  lemma WhichAnswer(s: Store, given: ClaimData, sid: Option<string>, lane: Option<Lane>, now: int, d: ClaimData)
    requires IsGiven(d, given, lane)
    ensures
      var outcome := WriteFact(s, given, sid, lane, now).1;
      var accepted := Accepted(d.lane, d.sourceType, d.confidence);
      var capped := CappedOut(s.sessions, sid, d.lane, now);
      var rival := exists i :: Rival(s.claims, d, i);
      var rivals := exists i, j :: i < j && Rival(s.claims, d, i) && Rival(s.claims, d, j);
      var known := exists i :: Rival(s.claims, d, i) && SameValue(s.claims[i].data, d);
      && (outcome == MultipleRows <==> accepted && !capped && rivals)
      && (outcome.Done? ==>
            var r := outcome.result;
            && r.lane == d.lane
            && (r.status == Rejected <==> !accepted || capped)
            && (r.status == NoOp <==> accepted && !capped && known)
            && (r.status == SupersededExisting <==> accepted && !capped && rival && !known)
            && (r.status == Written <==> accepted && !capped && !rival)
            && (r.conflict <==> r.status == SupersededExisting)
            && (r.reboundActive <==> accepted && r.status != NoOp && ReboundActive(s.sessions, sid, now))
            && r.reason == (if !accepted then
                              Policy(if d.lane != Evidence && !FromUser(d.sourceType) then SourceNotAllowed
                                     else BelowFloor)
                            else if capped then ReboundCap
                            else if r.status == NoOp then Resolved(Conflicts.IdenticalValue)
                            else if r.status == SupersededExisting then Resolved(Conflicts.IncomingSupersedes)
                            else Resolved(Conflicts.NoReason)))
  {
    hide Resolve, SameValue, CheckWritePolicy, Rebound.Read, Rebound.EvaluateRebound, Rebound.RecordWrite;
    hide Conflicts.Normalised, FromUser, Rival, FindRows, Accepted, CappedOut, ReboundActive, Map;
    PolicyAnswer(d);
    ActiveIff(s.sessions, sid, d.lane, now);
    RowsFound(s.claims, d);
    Uncontested(d);
    if i :| Rival(s.claims, d, i) {
      RivalIsSingle(s.claims, d, i);
      if Accepted(d.lane, d.sourceType, d.confidence) {
        Settled(s.claims[i], d);
      }
    }
  }

  // ---------- what is left behind ----------

  predicate Stores(status: Status) {
    status == Written || status == SupersededExisting
  }

  /** `after` is `before` with the row `i` set to superseded and nothing else about it changed. */
  predicate OnlySupersedes(before: seq<Claim>, after: seq<Claim>, i: int) {
    && |after| == |before| && 0 <= i < |before|
    && after[i] == before[i].(data := before[i].data.(state := Superseded))
    && forall j | 0 <= j < |before| && j != i :: after[j] == before[j]
  }

  /** The sessions after a recorded write: the session's instant, flag and lifetime are set anew and its counter grows
      by one, except for an identity write; without a session nothing is recorded. */
  ghost predicate Recorded(before: Rebound.Sessions, after: Rebound.Sessions, sid: Option<string>, lane: Lane,
                           now: int)
  {
    if sid == None then after == before
    else
      var used := if sid.value in before && now < before[sid.value].expiresAt then before[sid.value].count else 0;
      && (forall other :: other != sid.value ==> (other in after <==> other in before))
      && (forall other | other in before && other != sid.value :: other in after && after[other] == before[other])
      && sid.value in after
      && after[sid.value] == Rebound.Session(now, if lane == Identity then used else used + 1,
                                             ReboundActive(before, sid, now), now + 86400)
  }

  /** In every lane a write answered as written or superseding adds exactly one row, the given fact under the id the
      answer names, behind the old ones; a superseding one also retires the one rival, changing only its state. Every
      other answer, and a failing query, leaves table and sessions as they were. */
  lemma WhatIsLeft(s: Store, given: ClaimData, sid: Option<string>, lane: Option<Lane>, now: int, d: ClaimData)
    requires Numbered(s.claims) && IsGiven(d, given, lane)
    ensures
      var (after, outcome) := WriteFact(s, given, sid, lane, now);
      var n := |s.claims|;
      if outcome.Done? && Stores(outcome.result.status) then
        && outcome.result.claimId == Some(n)
        && |after.claims| == n + 1 && after.claims[n] == Claim(n, d, now, None)
        && (if outcome.result.status == Written then after.claims[..n] == s.claims
            else exists i :: Rival(s.claims, d, i) && (forall j | Rival(s.claims, d, j) :: j == i)
                             && OnlySupersedes(s.claims, after.claims[..n], i))
        && Recorded(s.sessions, after.sessions, sid, d.lane, now)
      else after == s && (outcome.Done? ==> outcome.result.claimId == None)
  {
    hide CheckWritePolicy, Rebound.Read, Rebound.EvaluateRebound, Rebound.RecordWrite, Resolve, Conflicts.Normalised;
    hide Rival, FindRows, Recorded, OnlySupersedes, Supersede, Numbered;
    var (after, outcome) := WriteFact(s, given, sid, lane, now);
    if outcome.Done? && Stores(outcome.result.status) {
      var n, rows := |s.claims|, FindRows(s.claims, d);
      assert FactStore.Refusal(s.sessions, d, sid, now) == None;
      RecordedSo(s.sessions, sid, d.lane, now);
      ResolutionShape(if rows == [] then None else Some(rows[0]), d);
      if outcome.result.status == Written {
        assert after.claims[..n] == s.claims;
      } else {
        var i := OneRival(s.claims, d);
        SupersedeAt(s.claims, i);
        assert after.claims[..n] == Map(Supersede(s.claims[i].id), s.claims);
      }
    }
  }

  lemma RecordedSo(sessions: Rebound.Sessions, sid: Option<string>, lane: Lane, now: int)
    ensures var active := Rebound.EvaluateRebound(lane, Rebound.Read(sessions, sid, now)).active;
            Recorded(sessions, Rebound.RecordWrite(sessions, sid, lane, active, now), sid, lane, now)
  {
    ActiveIff(sessions, sid, lane, now);
    hide Rebound.Read, Rebound.EvaluateRebound, ReboundActive;
  }

  /** Only a fact that is held is ever superseded. */
  lemma ResolutionShape(existing: Option<Claim>, d: ClaimData)
    ensures Resolve(existing, d).supersedeExisting ==> existing.Some?
  {
    hide Conflicts.Normalised;
  }

  lemma OneRival(claims: seq<Claim>, d: ClaimData) returns (i: int)
    requires |FindRows(claims, d)| == 1
    ensures Rival(claims, d, i) && 0 <= i < |claims| && FindRows(claims, d) == [claims[i]]
    ensures forall j | Rival(claims, d, j) :: j == i
  {
    hide FindRows, Rival;
    RowsFound(claims, d);
    i :| Rival(claims, d, i);
    RivalIsSingle(claims, d, i);
    forall j | Rival(claims, d, j)
      ensures j == i
    {
      assert !(i < j) && !(j < i);
    }
  }

  lemma SupersedeAt(claims: seq<Claim>, i: int)
    requires Numbered(claims) && 0 <= i < |claims|
    ensures OnlySupersedes(claims, Map(Supersede(claims[i].id), claims), i)
  {
  }
}
