/** The claim service and its append-only version log. */
module ClaimLog {
  import opened Prelude
  import opened Claims

  datatype Version = Version(
    claimId: nat,
    number: int,
    hash: string,
    previous: Option<string>,
    snapshot: Claim,
    changeReason: string,
    changedBy: string)

  datatype State = State(claims: seq<Claim>, versions: seq<Version>)

  const EMPTY: State := State([], [])

  function OfClaim(id: nat): Version -> bool {
    (v: Version) => v.claimId == id
  }

  function History(versions: seq<Version>, id: nat): seq<Version> {
    Filter(OfClaim(id), versions)
  }

  /** The row with the highest version number: `ORDER BY version_number DESC LIMIT 1`. */
  function Newest(rows: seq<Version>): (r: Option<Version>)
    ensures r == None <==> rows == []
    ensures r.Some? ==> r.value in rows && forall v | v in rows :: v.number <= r.value.number
  {
    if rows == [] then None
    else
      var rest := Newest(rows[1..]);
      if rest.Some? && rest.value.number > rows[0].number then rest else Some(rows[0])
  }

  /** `hash` is the digest of the canonical snapshot. */
  function NextVersion(hash: Claim -> string, versions: seq<Version>, c: Claim, reason: string, changedBy: string)
    : Version
  {
    match Newest(History(versions, c.id))
    case None => Version(c.id, 1, hash(c), None, c, reason, changedBy)
    case Some(latest) => Version(c.id, latest.number + 1, hash(c), Some(latest.hash), c, reason, changedBy)
  }

  function SensitivityName(s: Sensitivity): string {
    match s
    case S0 => "S0"
    case S1 => "S1"
    case S2 => "S2"
    case S3 => "S3"
    case S4 => "S4"
  }

  function ReasonFor(op: Op): string {
    match op
    case Retract => "User retracted"
    case Archive => "User archived"
    case Confirm => "User confirmed"
    case Lock => "User locked"
    case Unlock => "User unlocked"
    case SetSensitivity(s) => "Sensitivity updated to " + SensitivityName(s)
  }

  function Create(hash: Claim -> string, s: State, d: ClaimData, reason: string, changedBy: string, now: int)
    : (State, Claim)
  {
    var c := Claim(|s.claims|, d, now, None);
    (State(s.claims + [c], s.versions + [NextVersion(hash, s.versions, c, reason, changedBy)]), c)
  }

  function Change(hash: Claim -> string, s: State, id: nat, op: Op, changedBy: string, now: int)
    : (State, Result<Claim, Error>)
  {
    if id >= |s.claims| then (s, Failure(NotFound))
    else
      match ApplyOp(s.claims[id], op, now)
      case Failure(e) => (s, Failure(e))
      case Success(c) =>
        (State(s.claims[id := c], s.versions + [NextVersion(hash, s.versions, c, ReasonFor(op), changedBy)]),
         Success(c))
  }

  datatype Step =
    | CreateStep(data: ClaimData, reason: string, changedBy: string, now: int)
    | ChangeStep(id: nat, op: Op, changedBy: string, now: int)

  function Apply(hash: Claim -> string, s: State, step: Step): State {
    match step
    case CreateStep(d, reason, changedBy, now) => Create(hash, s, d, reason, changedBy, now).0
    case ChangeStep(id, op, changedBy, now) => Change(hash, s, id, op, changedBy, now).0
  }

  function Run(hash: Claim -> string, s: State, steps: seq<Step>): State
    decreases |steps|
  {
    if steps == [] then s else Run(hash, Apply(hash, s, steps[0]), steps[1..])
  }

  class ClaimService {
    const hash: Claim -> string
    var claims: seq<Claim>
    var versions: seq<Version>

    function St(): State
      reads this
    {
      State(claims, versions)
    }

    /** Every claim has its gap-free, hash-linked history, and the newest snapshot is the claim. */
    ghost predicate Valid()
      reads this
    {
      Inv(hash, St())
    }

    constructor (hash: Claim -> string)
      ensures this.hash == hash && St() == EMPTY && Valid()
    {
      this.hash := hash;
      claims, versions := [], [];
    }

    method RecordVersion(c: Claim, reason: string, changedBy: string)
      modifies this`versions
      ensures versions == old(versions) + [NextVersion(hash, old(versions), c, reason, changedBy)]
    {
      var latest := Newest(History(versions, c.id));
      var number := if latest.Some? then latest.value.number + 1 else 1;
      var previous := if latest.Some? then Some(latest.value.hash) else None;
      versions := versions + [Version(c.id, number, hash(c), previous, c, reason, changedBy)];
    }

    method PersistClaim(d: ClaimData, reason: string, changedBy: string, now: int) returns (c: Claim)
      modifies this
      ensures (St(), c) == Create(hash, old(St()), d, reason, changedBy, now)
      ensures old(Valid()) ==> Valid()
    {
      hide Inv;
      StepPreserves(hash, St(), CreateStep(d, reason, changedBy, now));
      c := Claim(|claims|, d, now, None);
      claims := claims + [c];
      RecordVersion(c, reason, changedBy);
    }

    /** Retract, archive, confirm, lock, unlock or reclassify one claim. */
    method ChangeClaim(id: nat, op: Op, changedBy: string, now: int) returns (r: Result<Claim, Error>)
      modifies this
      ensures (St(), r) == Change(hash, old(St()), id, op, changedBy, now)
      ensures old(Valid()) ==> Valid()
    {
      hide Inv;
      StepPreserves(hash, St(), ChangeStep(id, op, changedBy, now));
      if id >= |claims| {
        return Failure(NotFound);
      }
      r := ApplyOp(claims[id], op, now);
      if r.Success? {
        claims := claims[id := r.value];
        RecordVersion(r.value, ReasonFor(op), changedBy);
      }
    }
  }

  // ---------- the log invariant ----------

  /** One claim's history: numbered 1, 2, 3, ..., each version linked to the hash of the one before. */
  ghost predicate Chained(hash: Claim -> string, history: seq<Version>) {
    forall k | 0 <= k < |history| ::
      && history[k].number == k + 1
      && history[k].hash == hash(history[k].snapshot)
      && history[k].previous == if k == 0 then None else Some(history[k - 1].hash)
  }

  ghost predicate ClaimLogged(hash: Claim -> string, s: State, id: nat)
    requires id < |s.claims|
  {
    var history := History(s.versions, id);
    && s.claims[id].id == id
    && history != []
    && Chained(hash, history)
    && history[|history| - 1].snapshot == s.claims[id]
  }

  ghost predicate Inv(hash: Claim -> string, s: State) {
    && (forall id | 0 <= id < |s.claims| :: ClaimLogged(hash, s, id))
    && (forall v | v in s.versions :: v.claimId < |s.claims|)
  }

  lemma NewestIsLast(hash: Claim -> string, history: seq<Version>)
    requires Chained(hash, history) && history != []
    ensures Newest(history) == Some(history[|history| - 1])
  {
  }

  lemma HistoryAppend(versions: seq<Version>, v: Version, id: nat)
    ensures History(versions + [v], id) == if v.claimId == id then History(versions, id) + [v]
        else History(versions, id)
  {
    FilterAppend(OfClaim(id), versions, [v]);
    assert [v][1..] == [];
  }

  lemma ChainExtends(hash: Claim -> string, versions: seq<Version>, c: Claim, reason: string, changedBy: string)
    requires Chained(hash, History(versions, c.id))
    ensures
      var next := NextVersion(hash, versions, c, reason, changedBy);
      History(versions + [next], c.id) == History(versions, c.id) + [next]
      && Chained(hash, History(versions + [next], c.id))
      && next.snapshot == c
  {
    var next := NextVersion(hash, versions, c, reason, changedBy);
    HistoryAppend(versions, next, c.id);
    if History(versions, c.id) != [] {
      NewestIsLast(hash, History(versions, c.id));
    }
  }

  lemma CreateKeepsInv(hash: Claim -> string, s: State, d: ClaimData, reason: string, changedBy: string, now: int)
    requires Inv(hash, s)
    ensures Inv(hash, Create(hash, s, d, reason, changedBy, now).0)
  {
    hide Chained, NextVersion, History;
    var (after, c) := Create(hash, s, d, reason, changedBy, now);
    var next := NextVersion(hash, s.versions, c, reason, changedBy);
    NoHistory(hash, s);
    ChainExtends(hash, s.versions, c, reason, changedBy);
    NextIsFor(hash, s.versions, c, reason, changedBy);
    forall id | 0 <= id < |after.claims|
      ensures ClaimLogged(hash, after, id)
    {
      HistoryAppend(s.versions, next, id);
      if id < |s.claims| {
        assert ClaimLogged(hash, s, id);
      }
    }
  }

  lemma OpKeepsId(c: Claim, op: Op, now: int)
    ensures ApplyOp(c, op, now).Success? ==> ApplyOp(c, op, now).value.id == c.id
  {
  }

  lemma NextIsFor(hash: Claim -> string, versions: seq<Version>, c: Claim, reason: string, changedBy: string)
    ensures NextVersion(hash, versions, c, reason, changedBy).claimId == c.id
  {
  }

  lemma NoHistory(hash: Claim -> string, s: State)
    requires Inv(hash, s)
    ensures History(s.versions, |s.claims|) == [] && Chained(hash, History(s.versions, |s.claims|))
  {
    FilterNone(OfClaim(|s.claims|), s.versions);
  }

  lemma ChangeKeepsInv(hash: Claim -> string, s: State, id: nat, op: Op, changedBy: string, now: int)
    requires Inv(hash, s)
    ensures Inv(hash, Change(hash, s, id, op, changedBy, now).0)
  {
    hide Chained, NextVersion, History, ApplyOp, ReasonFor;
    var (after, r) := Change(hash, s, id, op, changedBy, now);
    if r.Success? {
      assert ClaimLogged(hash, s, id);
      OpKeepsId(s.claims[id], op, now);
      var next := NextVersion(hash, s.versions, r.value, ReasonFor(op), changedBy);
      ChainExtends(hash, s.versions, r.value, ReasonFor(op), changedBy);
      NextIsFor(hash, s.versions, r.value, ReasonFor(op), changedBy);
      forall other | 0 <= other < |after.claims|
        ensures ClaimLogged(hash, after, other)
      {
        HistoryAppend(s.versions, next, other);
        assert ClaimLogged(hash, s, other);
      }
    }
  }

  lemma StepPreserves(hash: Claim -> string, s: State, step: Step)
    ensures Inv(hash, s) ==> Inv(hash, Apply(hash, s, step))
  {
    hide Inv, Create, Change;
    if Inv(hash, s) {
      match step
      case CreateStep(d, reason, changedBy, now) => CreateKeepsInv(hash, s, d, reason, changedBy, now);
      case ChangeStep(id, op, changedBy, now) => ChangeKeepsInv(hash, s, id, op, changedBy, now);
    }
  }

  lemma {:induction false} RunKeepsInv(hash: Claim -> string, s: State, steps: seq<Step>)
    requires Inv(hash, s)
    ensures Inv(hash, Run(hash, s, steps))
    decreases |steps|
  {
    hide Inv, Apply;
    if steps == [] {
    } else {
      StepPreserves(hash, s, steps[0]);
      RunKeepsInv(hash, Apply(hash, s, steps[0]), steps[1..]);
    }
  }

  // ---------- main results ----------

  /** After every run each claim's versions are numbered without gaps, hash-linked in order, and the newest
      snapshot is the claim as it stands. */
  lemma HistoryIsFaithful(hash: Claim -> string, steps: seq<Step>, id: nat)
    requires id < |Run(hash, EMPTY, steps).claims|
    ensures
      var s := Run(hash, EMPTY, steps);
      var history := History(s.versions, id);
      && history != []
      && history[|history| - 1].snapshot == s.claims[id]
      && Chained(hash, history)
  {
    hide Run, History, Chained;
    assert Inv(hash, EMPTY);
    RunKeepsInv(hash, EMPTY, steps);
    assert ClaimLogged(hash, Run(hash, EMPTY, steps), id);
  }

  /** Versions already written are never altered or removed. */
  lemma {:induction false} LogIsAppendOnly(hash: Claim -> string, s: State, steps: seq<Step>)
    ensures s.versions <= Run(hash, s, steps).versions && |s.claims| <= |Run(hash, s, steps).claims|
    decreases |steps|
  {
    hide NextVersion, ApplyOp;
    if steps == [] {
    } else {
      LogIsAppendOnly(hash, Apply(hash, s, steps[0]), steps[1..]);
    }
  }

  /** A retracted claim stays retracted. */
  lemma {:induction false} RetractedIsFinalState(hash: Claim -> string, s: State, steps: seq<Step>, id: nat)
    requires id < |s.claims| && s.claims[id].data.state == Retracted
    ensures id < |Run(hash, s, steps).claims| && Run(hash, s, steps).claims[id].data.state == Retracted
    decreases |steps|
  {
    hide NextVersion;
    if steps == [] {
    } else {
      RetractedIsFinalState(hash, Apply(hash, s, steps[0]), steps[1..], id);
    }
  }

  /** Unlocking restores what locking changed if and only if the claim was decay-eligible: unlocking always switches
      decay on. */
  lemma UnlockUndoesLock(c: Claim, now: int, later: int)
    requires !c.data.userLocked
    ensures
      var locked := ApplyOp(c, Lock, now);
      && locked.Success?
      && ApplyOp(locked.value, Unlock, later) == Success(c.(data := c.data.(decayEligible := true)))
      && (ApplyOp(locked.value, Unlock, later) == Success(c) <==> c.data.decayEligible)
  {
  }

  /** An archived claim takes no part in decay; locked and unlocked again, it does, though it is still archived. */
  lemma ArchivedClaimDecaysAgain(hash: Claim -> string, d: ClaimData, now: int)
    requires !d.userLocked
    ensures
      var archive := [CreateStep(d, "direct_create", "user", now), ChangeStep(0, Archive, "user", now)];
      var unlock := [ChangeStep(0, Lock, "user", now), ChangeStep(0, Unlock, "user", now)];
      var archived, unlocked := Run(hash, EMPTY, archive), Run(hash, Run(hash, EMPTY, archive), unlock);
      && |archived.claims| == 1 && archived.claims[0].data == d.(lifecycle := "archived", decayEligible := false)
      && |unlocked.claims| == 1 && unlocked.claims[0].data == d.(lifecycle := "archived", decayEligible := true)
  {
    hide NextVersion;
    RunOfTwo(hash, EMPTY, CreateStep(d, "direct_create", "user", now), ChangeStep(0, Archive, "user", now));
    RunOfTwo(hash, Run(hash, EMPTY, [CreateStep(d, "direct_create", "user", now), ChangeStep(0, Archive, "user", now)]),
             ChangeStep(0, Lock, "user", now), ChangeStep(0, Unlock, "user", now));
  }

  lemma RunOfTwo(hash: Claim -> string, s: State, x: Step, y: Step)
    ensures Run(hash, s, [x, y]) == Apply(hash, Apply(hash, s, x), y)
  {
    hide Apply;
    assert [x, y][1..] == [y] && [y][1..] == [];
    assert Run(hash, Apply(hash, s, x), [y]) == Run(hash, Apply(hash, Apply(hash, s, x), y), []);
  }
}
