/** The claims table's rows and the lifecycle operations that touch a single row. */
module Claims {
  import opened Prelude
  import opened Lanes

  datatype VerificationState = Tentative | Confirmed | Superseded | Retracted

  datatype Sensitivity = S0 | S1 | S2 | S3 | S4

  datatype HandlingPolicy = CloudOkEncrypted | LocalOnly | S4Isolated

  datatype ClaimData = ClaimData(
    subject: string,
    attribute: Option<string>,
    value: string,
    content: string,
    lane: Lane,
    state: VerificationState,
    confidence: real,
    sourceRef: Option<string>,
    sourceType: string,
    sensitivity: Sensitivity,
    handlingPolicy: HandlingPolicy,
    userLocked: bool,
    decayEligible: bool,
    lifecycle: string)

  /** A stored claim: its data, and the timestamps the model follows. */
  datatype Claim = Claim(id: nat, data: ClaimData, ingestedAt: int, supersededAt: Option<int>)

  /** Neither superseded nor retracted: what every query calls an active claim. */
  predicate Live(state: VerificationState) {
    state != Superseded && state != Retracted
  }

  predicate IsLive(c: Claim) {
    Live(c.data.state)
  }

  datatype Error = NotFound | AlreadyLocked | NotLocked | AlreadyConfirmed | RetractedIsFinal

  /** What may be sent to a provider that is not local. */
  predicate CloudSafe(s: Sensitivity) {
    s.S0? || s.S1? || s.S2?
  }

  function PolicyOf(s: Sensitivity): HandlingPolicy {
    match s
    case S3 => LocalOnly
    case S4 => S4Isolated
    case _ => CloudOkEncrypted
  }

  /** The user-facing operations on one stored claim. */
  datatype Op = Retract | Archive | Confirm | Lock | Unlock | SetSensitivity(sensitivity: Sensitivity)

  function ApplyOp(c: Claim, op: Op, now: int): Result<Claim, Error> {
    var d := c.data;
    match op
    case Retract => Success(c.(data := d.(state := Retracted), supersededAt := Some(now)))
    case Archive => Success(c.(data := d.(lifecycle := "archived", decayEligible := false)))
    case Confirm =>
      if d.state == Retracted then Failure(RetractedIsFinal)
      else if d.state == Confirmed then Failure(AlreadyConfirmed)
      else Success(c.(data := d.(state := Confirmed)))
    case Lock =>
      if d.userLocked then Failure(AlreadyLocked)
      else Success(c.(data := d.(userLocked := true, decayEligible := false)))
    case Unlock =>
      if !d.userLocked then Failure(NotLocked)
      else Success(c.(data := d.(userLocked := false, decayEligible := true)))
    case SetSensitivity(s) =>
      Success(c.(data := d.(sensitivity := s, handlingPolicy := PolicyOf(s))))
  }
}
