/** The lane-governed write path over the claims table, with the operations that run beside it. */
module FactStore {
  import opened Prelude
  import opened Lanes
  import opened Claims
  import Conflicts
  import Rebound
  import LaneDecay

  datatype Store = Store(claims: seq<Claim>, sessions: Rebound.Sessions)

  const EMPTY: Store := Store([], map[])

  datatype Status = Written | Rejected | SupersededExisting | NoOp

  datatype Reason = Policy(refusal: Refusal) | ReboundCap | Resolved(reason: Conflicts.Reason)

  datatype WriteResult = WriteResult(
    status: Status, lane: Lane, claimId: Option<nat>, reason: Reason, reboundActive: bool, conflict: bool)

  /** `MultipleRows` is the exception of a query that expected at most one row. */
  datatype Outcome = Done(result: WriteResult) | MultipleRows

  predicate IsSingle(lane: Lane) {
    PolicyFor(lane).singleValued
  }

  // ---------- the write ----------

  function WithLane(d: ClaimData, lane: Option<Lane>): ClaimData {
    if lane.Some? then d.(lane := lane.value) else d
  }

  /** Active rows of the lane and subject, narrowed by the attribute only when the write names one. */
  function Matches(d: ClaimData): Claim -> bool {
    (c: Claim) =>
      && c.data.lane == d.lane && c.data.subject == d.subject && IsLive(c)
      && (d.attribute == None || c.data.attribute == d.attribute)
  }

  function FindRows(claims: seq<Claim>, d: ClaimData): seq<Claim> {
    if IsSingle(d.lane) then Filter(Matches(d), claims) else []
  }

  function Supersede(id: nat): Claim -> Claim {
    (c: Claim) => if c.id == id then c.(data := c.data.(state := Superseded)) else c
  }

  function FactOf(d: ClaimData): Conflicts.Fact {
    Conflicts.Fact(d.value, SourceCategory(d.sourceType))
  }

  function Resolve(existing: Option<Claim>, d: ClaimData): Conflicts.Resolution {
    Conflicts.ResolveSingleValued(
      Conflicts.Normalised, d.lane, if existing.Some? then Some(FactOf(existing.value.data)) else None, FactOf(d))
  }

  function NewClaim(id: nat, d: ClaimData, now: int): Claim {
    Claim(id, d, now, None)
  }

  function Refused(d: ClaimData, reason: Reason, active: bool): Outcome {
    Done(WriteResult(Rejected, d.lane, None, reason, active, false))
  }

  /** `None` when source policy and rebound protection both let the write through. */
  function Refusal(sessions: Rebound.Sessions, d: ClaimData, sid: Option<string>, now: int): Option<Outcome> {
    match CheckWritePolicy(d.lane, SourceCategory(d.sourceType), d.confidence)
    case Some(refusal) => Some(Refused(d, Policy(refusal), false))
    case None =>
      if Rebound.EvaluateRebound(d.lane, Rebound.Read(sessions, sid, now)).allowed then None
      else Some(Refused(d, ReboundCap, true))
  }

  /** The table after an admitted write. */
  function Commit(claims: seq<Claim>, d: ClaimData, now: int): Option<(seq<Claim>, Conflicts.Resolution)> {
    var rows := FindRows(claims, d);
    if |rows| > 1 then None
    else
      var existing := if rows == [] then None else Some(rows[0]);
      var resolution := Resolve(existing, d);
      if !resolution.writeIncoming then Some((claims, resolution))
      else
        var kept := if resolution.supersedeExisting && existing.Some? then Map(Supersede(existing.value.id), claims)
            else claims;
        Some((kept + [NewClaim(|claims|, d, now)], resolution))
  }

  function WriteFact(s: Store, given: ClaimData, sid: Option<string>, lane: Option<Lane>, now: int): (Store, Outcome) {
    var d := WithLane(given, lane);
    match Refusal(s.sessions, d, sid, now)
    case Some(refused) => (s, refused)
    case None =>
      match Commit(s.claims, d, now)
      case None => (s, MultipleRows)
      case Some((claims, resolution)) =>
        if !resolution.writeIncoming then
          (s, Done(WriteResult(if resolution.conflict then Rejected else NoOp, d.lane, None,
                               Resolved(resolution.reason), false, resolution.conflict)))
        else
          var active := Rebound.EvaluateRebound(d.lane, Rebound.Read(s.sessions, sid, now)).active;
          (Store(claims, Rebound.RecordWrite(s.sessions, sid, d.lane, active, now)),
           Done(WriteResult(if resolution.supersedeExisting then SupersededExisting
                            else Written, d.lane, Some(|s.claims|),
                            Resolved(resolution.reason), active, resolution.conflict)))
  }

  // ---------- the operations beside it ----------

  function OpOn(claims: seq<Claim>, id: nat, op: Op, now: int): seq<Claim> {
    if id >= |claims| then claims
    else
      match ApplyOp(claims[id], op, now)
      case Success(c) => claims[id := c]
      case Failure(_) => claims
  }

  datatype Step =
    | Write(data: ClaimData, sid: Option<string>, lane: Option<Lane>, now: int)
    | Change(id: nat, op: Op, now: int)
    | Decay(now: int)

  function Apply(half: real -> real, s: Store, step: Step): Store {
    match step
    case Write(d, sid, lane, now) => WriteFact(s, d, sid, lane, now).0
    case Change(id, op, now) => s.(claims := OpOn(s.claims, id, op, now))
    case Decay(now) => s.(claims := LaneDecay.DecayedTable(half, now, s.claims))
  }

  function Run(half: real -> real, s: Store, steps: seq<Step>): Store
    decreases |steps|
  {
    if steps == [] then s else Run(half, Apply(half, s, steps[0]), steps[1..])
  }

  // ---------- the service ----------

  class MemoryWriteService {
    var claims: seq<Claim>
    var sessions: Rebound.Sessions

    function St(): Store
      reads this
    {
      Store(claims, sessions)
    }

    /** At most one active claim per lane, subject and attribute in the single-valued lanes. */
    ghost predicate Valid()
      reads this
    {
      Inv(St())
    }

    constructor ()
      ensures St() == EMPTY && Valid()
    {
      claims, sessions := [], map[];
    }

    method WriteFactFor(given: ClaimData, sid: Option<string>, lane: Option<Lane>, now: int) returns (outcome: Outcome)
      modifies this
      ensures (St(), outcome) == WriteFact(old(St()), given, sid, lane, now)
      ensures old(Valid()) ==> Valid()
    {
      WritePreserves(St(), given, sid, lane, now);
      hide Inv, CheckWritePolicy, Conflicts.ResolveSingleValued, Rebound.Read, Rebound.RecordWrite, Matches;
      var d := WithLane(given, lane);
      var source := SourceCategory(d.sourceType);
      var policy := CheckWritePolicy(d.lane, source, d.confidence);
      if policy.Some? {
        return Refused(d, Policy(policy.value), false);
      }
      var reading := Rebound.Read(sessions, sid, now);
      var decision := Rebound.EvaluateRebound(d.lane, reading);
      if !decision.allowed {
        return Refused(d, ReboundCap, true);
      }
      var rows := FindRows(claims, d);
      if |rows| > 1 {
        return MultipleRows;
      }
      var existing := if rows == [] then None else Some(rows[0]);
      var resolution := Resolve(existing, d);
      if !resolution.writeIncoming {
        var status := if resolution.conflict then Rejected else NoOp;
        return Done(WriteResult(status, d.lane, None, Resolved(resolution.reason), false, resolution.conflict));
      }
      var id := |claims|;
      if resolution.supersedeExisting && existing.Some? {
        claims := Map(Supersede(existing.value.id), claims);
      }
      claims := claims + [NewClaim(id, d, now)];
      sessions := Rebound.RecordWrite(sessions, sid, d.lane, decision.active, now);
      outcome := Done(WriteResult(if resolution.supersedeExisting then SupersededExisting
                                  else Written, d.lane, Some(id),
                                  Resolved(resolution.reason), decision.active, resolution.conflict));
    }
  }

  // ---------- the invariant ----------

  datatype Key = Key(lane: Lane, subject: string, attribute: Option<string>)

  function KeyOf(d: ClaimData): Key {
    Key(d.lane, d.subject, d.attribute)
  }

  /** An active claim of a single-valued lane. */
  predicate Holds(c: Claim) {
    IsLive(c) && IsSingle(c.data.lane)
  }

  ghost predicate Numbered(claims: seq<Claim>) {
    forall i | 0 <= i < |claims| :: claims[i].id == i
  }

  /** At most one active claim per lane, subject and attribute in the single-valued lanes. */
  ghost predicate OneActive(claims: seq<Claim>) {
    forall i, j | 0 <= i < |claims| && 0 <= j < |claims| && Holds(claims[i]) && Holds(claims[j])
                  && KeyOf(claims[i].data) == KeyOf(claims[j].data) :: i == j
  }

  ghost predicate ObservedOnly(claims: seq<Claim>) {
    forall c | c in claims && IsSingle(c.data.lane) :: SourceCategory(c.data.sourceType) == Observation
  }

  ghost predicate Inv(s: Store) {
    Numbered(s.claims) && OneActive(s.claims) && ObservedOnly(s.claims)
  }

  /** Rows keep identity, key and source; none becomes active. */
  ghost predicate OnlyDeactivates(before: seq<Claim>, after: seq<Claim>) {
    && |after| == |before|
    && forall i | 0 <= i < |before| ::
         && after[i].id == before[i].id
         && KeyOf(after[i].data) == KeyOf(before[i].data)
         && after[i].data.sourceType == before[i].data.sourceType
         && (IsLive(after[i]) ==> IsLive(before[i]))
  }

  lemma DeactivationKeepsInv(s: Store, claims: seq<Claim>)
    requires Inv(s) && OnlyDeactivates(s.claims, claims)
    ensures Inv(s.(claims := claims))
  {
  }

  // ---------- what a write finds ----------

  /** With at most one row found, that row is the only active match. */
  lemma OnlyRowMatches(claims: seq<Claim>, d: ClaimData)
    requires |Filter(Matches(d), claims)| <= 1
    ensures forall i, j | 0 <= i < |claims| && 0 <= j < |claims| && Matches(d)(claims[i]) && Matches(d)(claims[j]) ::
        i == j
    ensures forall i | 0 <= i < |claims| && Matches(d)(claims[i]) :: [claims[i]] == Filter(Matches(d), claims)
    ensures Filter(Matches(d), claims) != [] ==> Filter(Matches(d), claims)[0] in claims
                                                 && Matches(d)(Filter(Matches(d), claims)[0])
  {
    hide Matches;
    var rows := Filter(Matches(d), claims);
    forall i, j | 0 <= i < |claims| && 0 <= j < |claims| && Matches(d)(claims[i]) && Matches(d)(claims[j])
      ensures i == j
    {
      if i < j {
        TwoSelected(Matches(d), claims, i, j);
      } else if j < i {
        TwoSelected(Matches(d), claims, j, i);
      }
    }
    forall i | 0 <= i < |claims| && Matches(d)(claims[i])
      ensures [claims[i]] == rows
    {
      FilterMember(Matches(d), claims, claims[i]);
    }
    if rows != [] {
      FilterMember(Matches(d), claims, rows[0]);
    }
  }

  /** A write that names an attribute finds at most one row. */
  lemma NamedFindsOne(claims: seq<Claim>, d: ClaimData)
    requires OneActive(claims) && IsSingle(d.lane) && d.attribute.Some?
    ensures |Filter(Matches(d), claims)| <= 1
  {
    forall i, j | 0 <= i < j < |claims|
      ensures !(Matches(d)(claims[i]) && Matches(d)(claims[j]))
    {
      assert Matches(d)(claims[i]) ==> Holds(claims[i]) && KeyOf(claims[i].data) == KeyOf(d);
    }
    if |Filter(Matches(d), claims)| >= 2 {
      var i, j := TwoIndices(Matches(d), claims);
      assert false;
    }
  }

  /** The failing query: it happens exactly to an admitted write without an attribute whose subject has two
      or more active claims in that single-valued lane. */
  lemma RaisesIff(s: Store, given: ClaimData, sid: Option<string>, lane: Option<Lane>, now: int)
    requires Inv(s)
    ensures
      var d := WithLane(given, lane);
      WriteFact(s, given, sid, lane, now).1 == MultipleRows <==>
        Refusal(s.sessions, d, sid, now) == None && IsSingle(d.lane) && d.attribute == None
        && exists i, j :: 0 <= i < j < |s.claims| && Matches(d)(s.claims[i]) && Matches(d)(s.claims[j])
  {
    hide CheckWritePolicy, Commit, Rebound.RecordWrite, Rebound.EvaluateRebound, Rebound.Read, OneActive, Numbered,
        ObservedOnly;
    CommitFailsIff(s, WithLane(given, lane));
  }

  lemma CommitFailsIff(s: Store, d: ClaimData)
    requires Inv(s)
    ensures forall now :: Commit(s.claims, d, now) == None <==>
              IsSingle(d.lane) && d.attribute == None
              && exists i, j :: 0 <= i < j < |s.claims| && Matches(d)(s.claims[i]) && Matches(d)(s.claims[j])
  {
    hide Resolve, Matches;
    if IsSingle(d.lane) {
      if d.attribute.Some? {
        NamedFindsOne(s.claims, d);
      } else if |Filter(Matches(d), s.claims)| >= 2 {
        var i, j := TwoIndices(Matches(d), s.claims);
      } else {
        OnlyRowMatches(s.claims, d);
      }
    }
  }

  /** In a single-valued lane an admitted write meets an observation with an observation: the same value is
      a no-op, any other value wins. */
  lemma AdmittedResolution(s: Store, d: ClaimData, sid: Option<string>, now: int, existing: Claim)
    requires Inv(s) && Refusal(s.sessions, d, sid, now) == None
    requires existing in s.claims && Matches(d)(existing) && IsSingle(d.lane)
    ensures
      var r := Resolve(Some(existing), d);
      if Conflicts.Normalised(existing.data.value) == Conflicts.Normalised(d.value)
      then !r.writeIncoming && !r.conflict
      else r.writeIncoming && r.supersedeExisting
  {
    hide Conflicts.Normalised;
    SingleValuedAdmitsObservationsOnly(d.lane, d.sourceType, d.confidence);
  }

  // ---------- a write keeps the invariant ----------

  lemma AppendKeepsInv(s: Store, claims: seq<Claim>, c: Claim)
    requires Inv(s.(claims := claims)) && c.id == |claims|
    requires IsSingle(c.data.lane) ==> SourceCategory(c.data.sourceType) == Observation
    requires Holds(c) ==> forall i | 0 <= i < |claims| && Holds(claims[i]) :: KeyOf(claims[i].data) != KeyOf(c.data)
    ensures Inv(s.(claims := claims + [c]))
  {
  }

  lemma MatchHolds(c: Claim, d: ClaimData)
    requires Matches(d)(c) && IsSingle(d.lane)
    ensures Holds(c)
  {
  }

  lemma MatchHasKey(c: Claim, d: ClaimData)
    requires Matches(d)(c) && IsSingle(d.lane) && (d.attribute.Some? || c.data.attribute == None)
    ensures Holds(c) && KeyOf(c.data) == KeyOf(d)
  {
  }

  lemma CommitKeepsInv(s: Store, d: ClaimData, sid: Option<string>, now: int)
    requires Inv(s) && Refusal(s.sessions, d, sid, now) == None && Commit(s.claims, d, now).Some?
    ensures Inv(s.(claims := Commit(s.claims, d, now).value.0))
  {
    hide Resolve, Conflicts.Normalised;
    var claims := s.claims;
    var c := NewClaim(|claims|, d, now);
    if !IsSingle(d.lane) {
      assert Resolve(None, d).writeIncoming by {
        FirstIsWritten(d);
      }
      AppendKeepsInv(s, claims, c);
    } else {
      SingleValuedAdmitsObservationsOnly(d.lane, d.sourceType, d.confidence);
      OnlyRowMatches(claims, d);
      var rows := Filter(Matches(d), claims);
      if rows == [] {
        FirstIsWritten(d);
        NoMatchNoKey(claims, d);
        AppendKeepsInv(s, claims, c);
      } else {
        AdmittedResolution(s, d, sid, now, rows[0]);
        if Resolve(Some(rows[0]), d).writeIncoming {
          var kept := Map(Supersede(rows[0].id), claims);
          DeactivationKeepsInv(s, kept);
          SupersededFreesKey(claims, d, rows[0]);
          AppendKeepsInv(s, kept, c);
        }
      }
    }
  }

  lemma FirstIsWritten(d: ClaimData)
    ensures Resolve(None, d).writeIncoming && !Resolve(None, d).supersedeExisting
  {
  }

  lemma NoMatchNoKey(claims: seq<Claim>, d: ClaimData)
    requires Filter(Matches(d), claims) == []
    ensures forall i | 0 <= i < |claims| && Holds(claims[i]) :: KeyOf(claims[i].data) != KeyOf(d)
  {
    forall i | 0 <= i < |claims| && Holds(claims[i])
      ensures KeyOf(claims[i].data) != KeyOf(d)
    {
      FilterMember(Matches(d), claims, claims[i]);
    }
  }

  lemma SupersededFreesKey(claims: seq<Claim>, d: ClaimData, row: Claim)
    requires Filter(Matches(d), claims) == [row]
    ensures var kept := Map(Supersede(row.id), claims);
            forall i | 0 <= i < |kept| && Holds(kept[i]) :: KeyOf(kept[i].data) != KeyOf(d)
  {
    var kept := Map(Supersede(row.id), claims);
    forall i | 0 <= i < |kept| && Holds(kept[i])
      ensures KeyOf(kept[i].data) != KeyOf(d)
    {
      assert kept[i] == claims[i];
      FilterMember(Matches(d), claims, claims[i]);
    }
  }

  lemma WritePreserves(s: Store, given: ClaimData, sid: Option<string>, lane: Option<Lane>, now: int)
    ensures Inv(s) ==> Inv(WriteFact(s, given, sid, lane, now).0)
  {
    hide Inv, Refusal, Commit;
    var d := WithLane(given, lane);
    if Inv(s) && Refusal(s.sessions, d, sid, now) == None && Commit(s.claims, d, now).Some? {
      CommitKeepsInv(s, d, sid, now);
      InvIgnoresSessions(s.(claims := Commit(s.claims, d, now).value.0),
                         WriteFact(s, given, sid, lane, now).0.sessions);
    }
  }

  lemma StepKeepsInv(half: real -> real, s: Store, step: Step)
    requires Inv(s) && !(step.Change? && step.op == Confirm)
    ensures Inv(Apply(half, s, step))
  {
    match step
    case Write(given, sid, lane, now) =>
      hide Inv, WriteFact;
      WritePreserves(s, given, sid, lane, now);
    case Change(id, op, now) =>
      hide Inv;
      DeactivationKeepsInv(s, OpOn(s.claims, id, op, now));
    case Decay(now) =>
      hide Inv, LaneDecay.VerdictFor;
      DeactivationKeepsInv(s, LaneDecay.DecayedTable(half, now, s.claims));
  }

  lemma InvIgnoresSessions(s: Store, sessions: Rebound.Sessions)
    requires Inv(s)
    ensures Inv(s.(sessions := sessions))
  {
  }

  ghost predicate NoConfirm(steps: seq<Step>) {
    forall step | step in steps :: !(step.Change? && step.op == Confirm)
  }

  lemma {:induction false} RunKeepsInv(half: real -> real, s: Store, steps: seq<Step>)
    requires Inv(s) && NoConfirm(steps)
    ensures Inv(Run(half, s, steps))
    decreases |steps|
  {
    hide Inv, Apply;
    if steps == [] {
    } else {
      StepKeepsInv(half, s, steps[0]);
      RunKeepsInv(half, Apply(half, s, steps[0]), steps[1..]);
    }
  }

  /** Over all runs of writes, retractions, archiving, locking, sensitivity changes and decay, a
      single-valued lane has at most one active claim per subject and attribute. */
  lemma SingleValuedLanesStaySingle(half: real -> real, steps: seq<Step>)
    requires NoConfirm(steps)
    ensures OneActive(Run(half, EMPTY, steps).claims)
  {
    hide Run, OneActive;
    assert Inv(EMPTY) by {
      EmptyInv();
    }
    RunKeepsInv(half, EMPTY, steps);
  }

  lemma EmptyInv()
    ensures Inv(EMPTY)
  {
  }

  /** Confirming is the exception: it accepts a superseded claim, and the lane keeps a single active value
      exactly when the claim was active already or no active claim has taken its key. */
  lemma ConfirmKeepsOneActiveIff(s: Store, id: nat, now: int)
    requires Inv(s) && id < |s.claims| && ApplyOp(s.claims[id], Confirm, now).Success?
    ensures OneActive(OpOn(s.claims, id, Confirm, now)) <==>
            || s.claims[id].data.state != Superseded
            || !IsSingle(s.claims[id].data.lane)
            || !(exists j :: 0 <= j < |s.claims| && Holds(s.claims[j])
                             && KeyOf(s.claims[j].data) == KeyOf(s.claims[id].data))
  {
    var claims, after := s.claims, OpOn(s.claims, id, Confirm, now);
    if claims[id].data.state == Superseded && IsSingle(claims[id].data.lane) {
      if j :| 0 <= j < |claims| && Holds(claims[j]) && KeyOf(claims[j].data) == KeyOf(claims[id].data) {
        assert Holds(after[j]) && Holds(after[id]) && KeyOf(after[j].data) == KeyOf(after[id].data) && j != id;
      }
    }
  }

  // ---------- refinement to a last-write-wins map ----------

  /** The single-valued lanes as a map from key to value. */
  ghost function Current(claims: seq<Claim>): (m: map<Key, string>)
    requires OneActive(claims)
    ensures forall i | 0 <= i < |claims| && Holds(claims[i]) ::
              KeyOf(claims[i].data) in m && m[KeyOf(claims[i].data)] == claims[i].data.value
    ensures forall k | k in m :: exists i :: 0 <= i < |claims| && Holds(claims[i]) && KeyOf(claims[i].data) == k
  {
    map i | 0 <= i < |claims| && Holds(claims[i]) :: KeyOf(claims[i].data) := claims[i].data.value
  }

  datatype Abstract = Abstract(values: map<Key, string>, sessions: Rebound.Sessions)

  ghost function Alpha(s: Store): Abstract
    requires OneActive(s.claims)
  {
    Abstract(Current(s.claims), s.sessions)
  }

  /** The simple store: an admitted write puts its value at its key, unless the value is already there up to
      normalisation; a write that arrives inactive only clears the key. */
  function Put(a: Abstract, given: ClaimData, sid: Option<string>, lane: Option<Lane>, now: int): Abstract {
    var d := WithLane(given, lane);
    var k := KeyOf(d);
    var active := Rebound.EvaluateRebound(d.lane, Rebound.Read(a.sessions, sid, now)).active;
    var sessions := Rebound.RecordWrite(a.sessions, sid, d.lane, active, now);
    if Refusal(a.sessions, d, sid, now).Some? then a
    else if !IsSingle(d.lane) then a.(sessions := sessions)
    else if k in a.values && Conflicts.Normalised(a.values[k]) == Conflicts.Normalised(d.value) then a
    else if Live(d.state) then Abstract(a.values[k := d.value], sessions)
    else Abstract(a.values - {k}, sessions)
  }

  /** Two tables with the same active single-valued claims, up to position, give the same map. */
  lemma CurrentIs(claims: seq<Claim>, m: map<Key, string>)
    requires OneActive(claims)
    requires forall i | 0 <= i < |claims| && Holds(claims[i]) ::
               KeyOf(claims[i].data) in m && m[KeyOf(claims[i].data)] == claims[i].data.value
    requires forall k | k in m :: exists i :: 0 <= i < |claims| && Holds(claims[i]) && KeyOf(claims[i].data) == k
    ensures Current(claims) == m
  {
  }

  /** Appending a claim whose key is free. */
  lemma CurrentAppend(claims: seq<Claim>, c: Claim)
    requires OneActive(claims) && OneActive(claims + [c])
    ensures Current(claims + [c]) == if Holds(c) then Current(claims)[KeyOf(c.data) := c.data.value]
        else Current(claims)
  {
    var all := claims + [c];
    var m := if Holds(c) then Current(claims)[KeyOf(c.data) := c.data.value] else Current(claims);
    forall i | 0 <= i < |all| && Holds(all[i])
      ensures KeyOf(all[i].data) in m && m[KeyOf(all[i].data)] == all[i].data.value
    {
      if i < |claims| {
        assert all[i] == claims[i];
        assert Holds(c) ==> KeyOf(all[i].data) != KeyOf(all[|claims|].data);
      }
    }
    forall k | k in m
      ensures exists i :: 0 <= i < |all| && Holds(all[i]) && KeyOf(all[i].data) == k
    {
      if k in Current(claims) {
        var i :| 0 <= i < |claims| && Holds(claims[i]) && KeyOf(claims[i].data) == k;
        assert all[i] == claims[i];
      } else {
        assert all[|claims|] == c;
      }
    }
    CurrentIs(all, m);
  }

  lemma SupersedeDrops(claims: seq<Claim>, n: nat)
    requires Numbered(claims) && OneActive(claims) && n < |claims| && Holds(claims[n])
    ensures var kept := Map(Supersede(n), claims);
            && (forall i | 0 <= i < |claims| :: Holds(kept[i]) <==> Holds(claims[i]) && i != n)
            && (forall i | 0 <= i < |claims| && i != n :: kept[i] == claims[i])
    ensures forall i | 0 <= i < |claims| && i != n && Holds(claims[i]) :: KeyOf(claims[i].data) != KeyOf(claims[n].data)
  {
  }

  /** Superseding a row takes exactly its key out of the map. */
  lemma CurrentSupersede(claims: seq<Claim>, n: nat)
    requires Numbered(claims) && OneActive(claims) && n < |claims| && Holds(claims[n])
    requires OneActive(Map(Supersede(n), claims))
    ensures Current(Map(Supersede(n), claims)) == Current(claims) - {KeyOf(claims[n].data)}
  {
    hide Current, KeyOf, Supersede, OneActive, Holds, Map;
    var kept := Map(Supersede(n), claims);
    var m := Current(claims) - {KeyOf(claims[n].data)};
    SupersedeDrops(claims, n);
    forall i | 0 <= i < |kept| && Holds(kept[i])
      ensures KeyOf(kept[i].data) in m && m[KeyOf(kept[i].data)] == kept[i].data.value
    {
      assert kept[i] == claims[i] && i != n;
    }
    forall k | k in m
      ensures exists i :: 0 <= i < |kept| && Holds(kept[i]) && KeyOf(kept[i].data) == k
    {
      var i :| 0 <= i < |claims| && Holds(claims[i]) && KeyOf(claims[i].data) == k;
      assert kept[i] == claims[i];
    }
    CurrentIs(kept, m);
  }

  /** The lookup is one by key: the write names an attribute, or nothing is found, or the one row found has none
      either. */
  predicate LooksUpByKey(claims: seq<Claim>, d: ClaimData) {
    var rows := FindRows(claims, d);
    d.attribute.Some? || rows == [] || (|rows| == 1 && rows[0].data.attribute == None)
  }

  /** One write refines one put. */
  lemma WriteRefinesPut(s: Store, given: ClaimData, sid: Option<string>, lane: Option<Lane>, now: int)
    requires Inv(s) && LooksUpByKey(s.claims, WithLane(given, lane))
    ensures var after := WriteFact(s, given, sid, lane, now).0;
            OneActive(after.claims) && Alpha(after) == Put(Alpha(s), given, sid, lane, now)
  {
    hide Refusal, Commit, Conflicts.Normalised, Rebound.RecordWrite, Rebound.Read, Rebound.EvaluateRebound, Current,
        OneActive;
    var d := WithLane(given, lane);
    assert OneActive(s.claims) by {
      InvParts(s);
    }
    if Refusal(s.sessions, d, sid, now) == None {
      CommitRefines(s, d, sid, now);
    }
  }

  lemma InvParts(s: Store)
    requires Inv(s)
    ensures Numbered(s.claims) && OneActive(s.claims)
  {
  }

  lemma CommitRefines(s: Store, d: ClaimData, sid: Option<string>, now: int)
    requires Inv(s) && Refusal(s.sessions, d, sid, now) == None && LooksUpByKey(s.claims, d)
    ensures Commit(s.claims, d, now).Some?
    ensures
      var (claims, r) := Commit(s.claims, d, now).value;
      var m, k := Current(s.claims), KeyOf(d);
      var same := k in m && Conflicts.Normalised(m[k]) == Conflicts.Normalised(d.value);
      && OneActive(claims)
      && (r.writeIncoming <==> !IsSingle(d.lane) || !same)
      && Current(claims) ==
           if !IsSingle(d.lane) || same then m
           else if Live(d.state) then m[k := d.value]
           else m - {k}
  {
    hide Refusal, Conflicts.Normalised, Resolve, Current, OneActive, Numbered, ObservedOnly;
    var claims := s.claims;
    var c := NewClaim(|claims|, d, now);
    InvParts(s);
    CommitTotal(s, d, sid, now);
    CommitKeepsInv(s, d, sid, now);
    if !IsSingle(d.lane) {
      FirstIsWritten(d);
      CurrentAppend(claims, c);
    } else {
      var rows := Filter(Matches(d), claims);
      if d.attribute.Some? {
        NamedFindsOne(claims, d);
      }
      OnlyRowMatches(claims, d);
      if rows == [] {
        FirstIsWritten(d);
        NoMatchNoKey(claims, d);
        assert KeyOf(d) !in Current(claims);
        CurrentAppend(claims, c);
      } else {
        MatchHasKey(rows[0], d);
        CommitReplaces(s, d, sid, now, rows[0]);
        ReplaceKey(Current(claims), KeyOf(d), d.value);
      }
    }
  }

  lemma CommitTotal(s: Store, d: ClaimData, sid: Option<string>, now: int)
    requires Inv(s) && LooksUpByKey(s.claims, d)
    ensures Commit(s.claims, d, now).Some?
  {
    if IsSingle(d.lane) && d.attribute.Some? {
      NamedFindsOne(s.claims, d);
    }
  }

  lemma CommitReplaces(s: Store, d: ClaimData, sid: Option<string>, now: int, row: Claim)
    requires Inv(s) && Refusal(s.sessions, d, sid, now) == None && IsSingle(d.lane)
    requires Filter(Matches(d), s.claims) == [row] && row in s.claims && Matches(d)(row)
    ensures
      var m, k, taken := Current(s.claims), KeyOf(d), KeyOf(row.data);
      && Commit(s.claims, d, now).Some?
      && taken in m && m[taken] == row.data.value
      && var (claims, r) := Commit(s.claims, d, now).value;
      && OneActive(claims)
      && (r.writeIncoming <==> Conflicts.Normalised(row.data.value) != Conflicts.Normalised(d.value))
      && Current(claims) == if !r.writeIncoming then m else if Live(d.state) then (m - {taken})[k := d.value]
          else m - {taken}
  {
    hide Refusal, Conflicts.Normalised, Commit, Matches, Filter, Current, Inv, OneActive, Numbered, Supersede, KeyOf;
    var claims, kept, c := s.claims, Map(Supersede(row.id), s.claims), NewClaim(|s.claims|, d, now);
    InvParts(s);
    MatchHolds(row, d);
    var n :| 0 <= n < |claims| && claims[n] == row;
    CurrentAt(claims, n);
    CommitShape(s, d, sid, now, row);
    CommitKeepsInv(s, d, sid, now);
    InvParts(s.(claims := Commit(claims, d, now).value.0));
    if Conflicts.Normalised(row.data.value) != Conflicts.Normalised(d.value) {
      SupersedeKeepsInv(s, row.id);
      InvParts(s.(claims := kept));
      NumberedAt(claims, n);
      CurrentSupersede(claims, n);
      CurrentAppend(kept, c);
    }
  }

  /** A write without an attribute meets the subject's only active value whatever attribute that one has: the
      same value is a no-op, and any other displaces it, so that the key it was stored under is empty. */
  lemma NamelessWriteDisplaces(s: Store, given: ClaimData, sid: Option<string>, lane: Option<Lane>, now: int,
                               row: Claim)
    requires Inv(s)
    requires
      var d := WithLane(given, lane);
      IsSingle(d.lane) && d.attribute == None && Refusal(s.sessions, d, sid, now) == None
          && FindRows(s.claims, d) == [row]
    ensures
      var d := WithLane(given, lane);
      var m, after := Current(s.claims), WriteFact(s, given, sid, lane, now).0.claims;
      && KeyOf(row.data) in m && m[KeyOf(row.data)] == row.data.value
      && OneActive(after)
      && Current(after) ==
           if Conflicts.Normalised(row.data.value) == Conflicts.Normalised(d.value) then m
           else if Live(d.state) then (m - {KeyOf(row.data)})[KeyOf(d) := d.value]
           else m - {KeyOf(row.data)}
  {
    hide Refusal, Commit, Conflicts.Normalised, Rebound.RecordWrite, Rebound.Read, Rebound.EvaluateRebound, Current,
        OneActive;
    var d := WithLane(given, lane);
    InvParts(s);
    OnlyRowMatches(s.claims, d);
    CommitReplaces(s, d, sid, now, row);
  }

  lemma ReplaceKey<K, V>(m: map<K, V>, k: K, v: V)
    ensures (m - {k})[k := v] == m[k := v]
  {
  }

  lemma NumberedAt(claims: seq<Claim>, n: nat)
    requires Numbered(claims) && n < |claims|
    ensures claims[n].id == n
  {
  }

  lemma CurrentAt(claims: seq<Claim>, n: nat)
    requires OneActive(claims) && n < |claims| && Holds(claims[n])
    ensures KeyOf(claims[n].data) in Current(claims) && Current(claims)[KeyOf(claims[n].data)] == claims[n].data.value
  {
  }

  lemma SupersedeKeepsInv(s: Store, id: nat)
    requires Inv(s)
    ensures Inv(s.(claims := Map(Supersede(id), s.claims)))
  {
    hide Inv;
    DeactivationKeepsInv(s, Map(Supersede(id), s.claims));
  }

  lemma CommitShape(s: Store, d: ClaimData, sid: Option<string>, now: int, row: Claim)
    requires Inv(s) && Refusal(s.sessions, d, sid, now) == None && IsSingle(d.lane)
    requires Filter(Matches(d), s.claims) == [row] && row in s.claims && Matches(d)(row)
    ensures
      && Commit(s.claims, d, now).Some?
      && var (claims, r) := Commit(s.claims, d, now).value;
      && (r.writeIncoming <==> Conflicts.Normalised(row.data.value) != Conflicts.Normalised(d.value))
      && claims == if r.writeIncoming then Map(Supersede(row.id), s.claims) + [NewClaim(|s.claims|, d, now)]
          else s.claims
  {
    hide Refusal, Conflicts.Normalised, Resolve, Matches, Filter, Inv;
    AdmittedResolution(s, d, sid, now, row);
  }

  /** The write answers, and the table after it is the map after the corresponding put. */
  ghost predicate RefinesPut(s: Store, given: ClaimData, sid: Option<string>, lane: Option<Lane>, now: int)
    requires OneActive(s.claims)
  {
    var (after, outcome) := WriteFact(s, given, sid, lane, now);
    outcome.Done? && OneActive(after.claims) && Alpha(after) == Put(Alpha(s), given, sid, lane, now)
  }

  /** A put that would leave no trace either: an inactive claim with the row's value, in a session it does not
      change. */
  predicate LeavesNoTrace(s: Store, d: ClaimData, sid: Option<string>, now: int, row: Claim) {
    var active := Rebound.EvaluateRebound(d.lane, Rebound.Read(s.sessions, sid, now)).active;
    && !Live(d.state) && Conflicts.Normalised(row.data.value) == Conflicts.Normalised(d.value)
    && Rebound.RecordWrite(s.sessions, sid, d.lane, active, now) == s.sessions
  }

  /** Exactly when a write behaves as the simple map: it is refused, or its lane is multi-valued, or it looks its row
      up by key. A write without an attribute does not when it finds two rows or more, for then it raises, and when
      the one row it finds is stored under an attribute, unless the put would leave no trace. */
  lemma RefinesPutIff(s: Store, given: ClaimData, sid: Option<string>, lane: Option<Lane>, now: int)
    requires Inv(s)
    ensures OneActive(s.claims)
    ensures
      var d := WithLane(given, lane);
      var rows := FindRows(s.claims, d);
      RefinesPut(s, given, sid, lane, now) <==>
        || Refusal(s.sessions, d, sid, now).Some? || !IsSingle(d.lane) || LooksUpByKey(s.claims, d)
        || (|rows| == 1 && LeavesNoTrace(s, d, sid, now, rows[0]))
  {
    hide Refusal, Commit, Conflicts.Normalised, Rebound.RecordWrite, Rebound.Read, Rebound.EvaluateRebound, OneActive,
        Current, LeavesNoTrace, Put;
    var d := WithLane(given, lane);
    var rows := FindRows(s.claims, d);
    InvParts(s);
    if Refusal(s.sessions, d, sid, now).Some? {
      RefusedRefines(s, given, sid, lane, now);
    } else if LooksUpByKey(s.claims, d) {
      WriteRefinesPut(s, given, sid, lane, now);
      CommitTotal(s, d, sid, now);
    } else if |rows| == 1 {
      OtherKeyRefinesIff(s, given, sid, lane, now, rows[0]);
    } else {
      assert Commit(s.claims, d, now) == None by {
        ManyRowsFail(s.claims, d, now);
      }
    }
  }

  lemma RefusedRefines(s: Store, given: ClaimData, sid: Option<string>, lane: Option<Lane>, now: int)
    requires OneActive(s.claims) && Refusal(s.sessions, WithLane(given, lane), sid, now).Some?
    ensures RefinesPut(s, given, sid, lane, now)
  {
    hide CheckWritePolicy, Commit, Conflicts.Normalised, Rebound.RecordWrite, Rebound.Read, Rebound.EvaluateRebound,
        OneActive, Current;
  }

  lemma ManyRowsFail(claims: seq<Claim>, d: ClaimData, now: int)
    requires |FindRows(claims, d)| > 1
    ensures Commit(claims, d, now) == None
  {
    hide FindRows;
  }

  lemma OtherKeyRefinesIff(s: Store, given: ClaimData, sid: Option<string>, lane: Option<Lane>, now: int, row: Claim)
    requires Inv(s) && OneActive(s.claims)
    requires
      var d := WithLane(given, lane);
      && IsSingle(d.lane) && d.attribute == None && Refusal(s.sessions, d, sid, now) == None
      && FindRows(s.claims, d) == [row] && row.data.attribute.Some?
    ensures RefinesPut(s, given, sid, lane, now) <==> LeavesNoTrace(s, WithLane(given, lane), sid, now, row)
  {
    hide Refusal, Commit, Conflicts.Normalised, Rebound.RecordWrite, Rebound.Read, Rebound.EvaluateRebound, OneActive,
        Current, FindRows;
    hide WriteFact, Inv, KeyOf;
    var d := WithLane(given, lane);
    var m, k, taken := Current(s.claims), KeyOf(d), KeyOf(row.data);
    NamelessWriteDisplaces(s, given, sid, lane, now, row);
    NamelessKeyFree(s.claims, d, row);
    NamelessAnswers(s, given, sid, lane, now, row);
    var after, put := WriteFact(s, given, sid, lane, now).0, Put(Alpha(s), given, sid, lane, now);
    var active := Rebound.EvaluateRebound(d.lane, Rebound.Read(s.sessions, sid, now)).active;
    assert put.sessions == Rebound.RecordWrite(s.sessions, sid, d.lane, active, now);
    assert put.values == if Live(d.state) then m[k := d.value] else m - {k};
    if Conflicts.Normalised(row.data.value) == Conflicts.Normalised(d.value) {
      assert Live(d.state) ==> k in put.values;
      assert m - {k} == m;
    } else {
      assert taken in put.values && taken !in Current(after.claims);
    }
  }

  lemma NamelessKeyFree(claims: seq<Claim>, d: ClaimData, row: Claim)
    requires OneActive(claims) && IsSingle(d.lane) && d.attribute == None && FindRows(claims, d) == [row]
        && row.data.attribute.Some?
    ensures KeyOf(d) !in Current(claims) && KeyOf(d) != KeyOf(row.data)
  {
    hide Current, OneActive;
    forall i | 0 <= i < |claims| && Holds(claims[i])
      ensures KeyOf(claims[i].data) != KeyOf(d)
    {
      FilterMember(Matches(d), claims, claims[i]);
      assert Matches(d)(claims[i]) ==> claims[i] == row;
    }
    FilterMember(Matches(d), claims, row);
  }

  /** What such a write does beside the claims: it answers, and it records itself unless the value is the same. */
  lemma NamelessAnswers(s: Store, given: ClaimData, sid: Option<string>, lane: Option<Lane>, now: int, row: Claim)
    requires Inv(s)
    requires
      var d := WithLane(given, lane);
      IsSingle(d.lane) && d.attribute == None && Refusal(s.sessions, d, sid, now) == None
          && FindRows(s.claims, d) == [row]
    ensures
      var d := WithLane(given, lane);
      var active := Rebound.EvaluateRebound(d.lane, Rebound.Read(s.sessions, sid, now)).active;
      var (after, outcome) := WriteFact(s, given, sid, lane, now);
      && outcome.Done?
      && after.sessions == if Conflicts.Normalised(row.data.value) == Conflicts.Normalised(d.value) then s.sessions
                           else Rebound.RecordWrite(s.sessions, sid, d.lane, active, now)
  {
    hide Refusal, Commit, Conflicts.Normalised, Rebound.RecordWrite, Rebound.Read, Rebound.EvaluateRebound, Current,
        OneActive, Inv;
    var d := WithLane(given, lane);
    OnlyRowMatches(s.claims, d);
    CommitShape(s, d, sid, now, row);
  }

  function PutAll(a: Abstract, writes: seq<Step>): Abstract
    requires forall w | w in writes :: w.Write?
    decreases |writes|
  {
    if writes == [] then a
    else PutAll(Put(a, writes[0].data, writes[0].sid, writes[0].lane, writes[0].now), writes[1..])
  }

  /** Over every run of writes that name an attribute, the table with its history of superseded rows behaves
      as the simple map. */
  lemma {:induction false} WritesRefineMap(half: real -> real, s: Store, writes: seq<Step>)
    requires Inv(s) && forall w | w in writes :: w.Write? && w.data.attribute.Some?
    ensures var after := Run(half, s, writes);
            OneActive(after.claims) && Alpha(after) == PutAll(Alpha(s), writes)
    decreases |writes|
  {
    hide WriteFact, Put, Alpha, OneActive;
    InvParts(s);
    if writes == [] {
    } else {
      var w := writes[0];
      WriteRefinesPut(s, w.data, w.sid, w.lane, w.now);
      StepKeepsInv(half, s, w);
      WritesRefineMap(half, Apply(half, s, w), writes[1..]);
    }
  }

  // ---------- runs that show where it fails ----------

  function Sample(attribute: Option<string>, value: string): ClaimData {
    ClaimData("user", attribute, value, value, Identity, Confirmed, 1.0, None, "user_explicit", S0, CloudOkEncrypted,
              false, true, "active")
  }

  function SampleClaim(id: nat, attribute: Option<string>, value: string): Claim {
    NewClaim(id, Sample(attribute, value), 0)
  }

  function SampleWrite(attribute: Option<string>, value: string): Step {
    Write(Sample(attribute, value), None, None, 0)
  }

  lemma SampleAdmitted(attribute: Option<string>, value: string)
    ensures Refusal(map[], Sample(attribute, value), None, 0) == None
  {
    SingleValuedAdmitsObservationsOnly(Identity, "user_explicit", 1.0);
  }

  lemma FirstSample(half: real -> real, attribute: Option<string>, value: string)
    ensures Apply(half, EMPTY, SampleWrite(attribute, value)) == Store([SampleClaim(0, attribute, value)], map[])
  {
    hide Refusal, Conflicts.Normalised;
    SampleAdmitted(attribute, value);
  }

  /** Two attributes live side by side. */
  lemma SecondAttribute(half: real -> real, a: string, v: string, b: string, w: string)
    requires a != b
    ensures Apply(half, Store([SampleClaim(0, Some(a), v)], map[]), SampleWrite(Some(b), w))
         == Store([SampleClaim(0, Some(a), v), SampleClaim(1, Some(b), w)], map[])
  {
    hide Refusal, Conflicts.Normalised;
    SampleAdmitted(Some(b), w);
    assert [SampleClaim(0, Some(a), v)][1..] == [];
  }

  /** Another value displaces the first, for the same attribute or for none. */
  lemma OtherValue(half: real -> real, a: string, v: string, attribute: Option<string>, w: string)
    requires (attribute == None || attribute == Some(a)) && Conflicts.Normalised(v) != Conflicts.Normalised(w)
    ensures Apply(half, Store([SampleClaim(0, Some(a), v)], map[]), SampleWrite(attribute, w))
         == Store([Supersede(0)(SampleClaim(0, Some(a), v)), SampleClaim(1, attribute, w)], map[])
  {
    hide Refusal, Conflicts.Normalised;
    var c := SampleClaim(0, Some(a), v);
    SampleAdmitted(attribute, w);
    assert [c][1..] == [] && FindRows([c], Sample(attribute, w)) == [c];
    assert Map(Supersede(0), [c]) == [Supersede(0)(c)];
  }

  lemma RunOfTwo(half: real -> real, x: Step, y: Step)
    ensures Run(half, EMPTY, [x, y]) == Apply(half, Apply(half, EMPTY, x), y)
  {
    hide Apply;
    assert [x, y][1..] == [y] && [y][1..] == [];
    assert Run(half, Apply(half, EMPTY, x), [y]) == Run(half, Apply(half, Apply(half, EMPTY, x), y), []);
  }

  /** A name and a city are stored; a write about the same subject that names no attribute raises. */
  lemma WriteCanRaise(half: real -> real)
    ensures
      var s := Run(half, EMPTY, [SampleWrite(Some("name"), "a"), SampleWrite(Some("city"), "b")]);
      WriteFact(s, Sample(None, "a"), None, None, 0).1 == MultipleRows
  {
    hide Apply;
    FirstSample(half, Some("name"), "a");
    assert "name"[0] != "city"[0];
    SecondAttribute(half, "name", "a", "city", "b");
    RunOfTwo(half, SampleWrite(Some("name"), "a"), SampleWrite(Some("city"), "b"));
    TwoSamplesRaise(SampleClaim(0, Some("name"), "a"), SampleClaim(1, Some("city"), "b"), Sample(None, "a"));
  }

  lemma TwoSamplesRaise(c0: Claim, c1: Claim, d: ClaimData)
    requires Matches(d)(c0) && Matches(d)(c1) && IsSingle(d.lane) && Refusal(map[], d, None, 0) == None
    ensures WriteFact(Store([c0, c1], map[]), d, None, None, 0).1 == MultipleRows
  {
    hide Refusal, Matches;
    TwoSelected(Matches(d), [c0, c1], 0, 1);
    ManyRowsFail([c0, c1], d, 0);
  }

  /** A name is stored; a write about the same subject that names no attribute empties its key. */
  lemma NameCanBeLost(half: real -> real)
    ensures
      var before := Run(half, EMPTY, [SampleWrite(Some("name"), "a")]).claims;
      var after := Run(half, EMPTY, [SampleWrite(Some("name"), "a"), SampleWrite(None, "b")]).claims;
      && OneActive(before) && OneActive(after)
      && KeyOf(Sample(Some("name"), "a")) in Current(before) && KeyOf(Sample(Some("name"), "a")) !in Current(after)
  {
    hide Apply, Conflicts.Normalised, Current;
    var c0, c1 := SampleClaim(0, Some("name"), "a"), SampleClaim(1, None, "b");
    FirstSample(half, Some("name"), "a");
    Conflicts.DistinctLetters();
    OtherValue(half, "name", "a", None, "b");
    RunOfTwo(half, SampleWrite(Some("name"), "a"), SampleWrite(None, "b"));
    assert [SampleWrite(Some("name"), "a")][1..] == [];
    CurrentAt([c0], 0);
  }

  /** A name is stored and replaced; confirming the replaced claim gives the lane two active names. */
  lemma ConfirmCanDuplicate(half: real -> real)
    ensures
      var s := Run(half, EMPTY, [SampleWrite(Some("name"), "a"), SampleWrite(Some("name"), "b")]);
      OneActive(s.claims) && !OneActive(Apply(half, s, Change(0, Confirm, 0)).claims)
  {
    hide *;
    TwoNames(half);
    ConfirmedTwice(half);
  }

  lemma ConfirmedTwice(half: real -> real)
    ensures
      var s := Store([Supersede(0)(SampleClaim(0, Some("name"), "a")), SampleClaim(1, Some("name"), "b")], map[]);
      OneActive(s.claims) && !OneActive(Apply(half, s, Change(0, Confirm, 0)).claims)
  {
    var c0, c1 := SampleClaim(0, Some("name"), "a"), SampleClaim(1, Some("name"), "b");
    var after := OpOn([Supersede(0)(c0), c1], 0, Confirm, 0);
    assert Holds(after[0]) && Holds(after[1]) && KeyOf(after[0].data) == KeyOf(after[1].data);
  }

  lemma TwoNames(half: real -> real)
    ensures Run(half, EMPTY, [SampleWrite(Some("name"), "a"), SampleWrite(Some("name"), "b")])
         == Store([Supersede(0)(SampleClaim(0, Some("name"), "a")), SampleClaim(1, Some("name"), "b")], map[])
  {
    hide Apply, Conflicts.Normalised;
    FirstSample(half, Some("name"), "a");
    Conflicts.DistinctLetters();
    OtherValue(half, "name", "a", Some("name"), "b");
    RunOfTwo(half, SampleWrite(Some("name"), "a"), SampleWrite(Some("name"), "b"));
  }

  // ---------- rebound over runs ----------

  predicate Alive(sessions: Rebound.Sessions, sid: string, now: int) {
    sid in sessions ==> now < sessions[sid].expiresAt
  }

  /** Time does not run backwards and the session's key never expires before it is used. */
  predicate Timely(half: real -> real, s: Store, sid: string, steps: seq<Step>, from: int)
    decreases |steps|
  {
    if steps == [] then true
    else
      && from <= steps[0].now
      && Alive(s.sessions, sid, steps[0].now)
      && Timely(half, Apply(half, s, steps[0]), sid, steps[1..], steps[0].now)
  }

  function EndTime(steps: seq<Step>, from: int): int {
    if steps == [] then from else steps[|steps| - 1].now
  }

  /** Whether a step records a non-identity write in the session. */
  predicate RecordsIn(s: Store, sid: string, step: Step) {
    && step.Write? && step.sid == Some(sid) && WithLane(step.data, step.lane).lane != Identity
    && var outcome := WriteFact(s, step.data, step.sid, step.lane, step.now).1;
       outcome.Done? && outcome.result.status in {Written, SupersededExisting}
  }

  function RecordedIn(half: real -> real, s: Store, sid: string, steps: seq<Step>): nat
    decreases |steps|
  {
    if steps == [] then 0
    else (if RecordsIn(s, sid, steps[0]) then 1 else 0) + RecordedIn(half, Apply(half, s, steps[0]), sid, steps[1..])
  }

  lemma ReboundStep(half: real -> real, s: Store, sid: string, step: Step, from: int, to: int)
    requires from <= step.now <= to && Alive(s.sessions, sid, step.now)
    requires Rebound.Read(s.sessions, Some(sid), from).active
    ensures
      var s1 := Apply(half, s, step);
      var before, after := Rebound.Read(s.sessions, Some(sid), from), s1.sessions[sid];
      && sid in s1.sessions
      && (to < after.expiresAt ==> Rebound.Read(s1.sessions, Some(sid), to).active)
      && after.count == before.writes + (if RecordsIn(s, sid, step) then 1 else 0)
      && (RecordsIn(s, sid, step) ==> before.writes < 5)
  {
    hide Commit, CheckWritePolicy;
  }

  /** From a read that finds rebound active on, every later read does too, and the non-identity writes
      recorded number at most five minus those already counted. */
  lemma {:induction false} ReboundHolds(half: real -> real, s: Store, sid: string, steps: seq<Step>, from: int, to: int)
    requires Rebound.Read(s.sessions, Some(sid), from).active && Timely(half, s, sid, steps, from)
    requires EndTime(steps, from) <= to && Alive(Run(half, s, steps).sessions, sid, to)
    ensures
      var writes := Rebound.Read(s.sessions, Some(sid), from).writes;
      && Rebound.Read(Run(half, s, steps).sessions, Some(sid), to).active
      && RecordedIn(half, s, sid, steps) <= if writes >= 5 then 0 else 5 - writes
    decreases |steps|
  {
    hide Apply, RecordsIn;
    if steps == [] {
    } else {
      var step, s1 := steps[0], Apply(half, s, steps[0]);
      ReboundStep(half, s, sid, step, from, step.now);
      ReboundHolds(half, s1, sid, steps[1..], step.now, to);
    }
  }

  /** A write is refused by rebound protection exactly when source policy would let it through, it is not an identity
      write, the session reads as active and its five writes are used up; then nothing changes. No identity write
      ever is. */
  lemma ReboundRefusesIff(s: Store, given: ClaimData, sid: Option<string>, lane: Option<Lane>, now: int)
    ensures
      var d := WithLane(given, lane);
      var (after, outcome) := WriteFact(s, given, sid, lane, now);
      var reading := Rebound.Read(s.sessions, sid, now);
      && ((outcome.Done? && outcome.result.reason == ReboundCap) <==>
            && CheckWritePolicy(d.lane, SourceCategory(d.sourceType), d.confidence) == None
            && d.lane != Identity && reading.active && reading.writes >= 5)
      && (outcome.Done? && outcome.result.reason == ReboundCap ==> after == s && outcome.result.status == Rejected)
  {
    hide Commit, CheckWritePolicy, Rebound.Read, Rebound.RecordWrite;
    Rebound.RefusedIff(WithLane(given, lane).lane, Rebound.Read(s.sessions, sid, now));
  }
}
