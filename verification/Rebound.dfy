/** Flood control after an idle gap: the session hash and the decision made from it. */
module Rebound {
  import opened Prelude
  import opened Lanes

  const IDLE_THRESHOLD: int := 6 * 60 * 60
  const MAX_NON_IDENTITY: int := 5
  const KEY_TTL: int := 24 * 60 * 60

  /** The session's hash in the key-value store, with the instant at which the key disappears. */
  datatype Session = Session(lastTs: int, count: int, active: bool, expiresAt: int)

  type Sessions = map<string, Session>

  datatype Reading = Reading(active: bool, writes: int)

  datatype Decision = Decision(allowed: bool, active: bool)

  /** The hash as a read finds it; an expired key is gone. */
  function Visible(sessions: Sessions, sid: string, now: int): Option<Session> {
    if sid in sessions && now < sessions[sid].expiresAt then Some(sessions[sid]) else None
  }

  function Read(sessions: Sessions, sid: Option<string>, now: int): Reading {
    if sid == None then Reading(false, 0)
    else
      match Visible(sessions, sid.value, now)
      case None => Reading(false, 0)
      case Some(h) =>
        var idleTooLong := h.lastTs != 0 && now - h.lastTs > IDLE_THRESHOLD;
        Reading(h.active || idleTooLong, h.count)
  }

  function EvaluateRebound(lane: Lane, reading: Reading): Decision {
    if lane == Identity then Decision(true, reading.active)
    else if !reading.active then Decision(true, false)
    else if reading.writes >= MAX_NON_IDENTITY then Decision(false, true)
    else Decision(true, true)
  }

  /** Recording a successful write: the fields are set, the counter grows except for identity, the key's
      lifetime restarts. */
  function RecordWrite(sessions: Sessions, sid: Option<string>, lane: Lane, active: bool, now: int): Sessions {
    if sid == None then sessions
    else
      var before := match Visible(sessions, sid.value, now) case Some(h) => h.count case None => 0;
      sessions[sid.value := Session(now, if lane == Identity then before else before + 1, active, now + KEY_TTL)]
  }

  /** No identity write is ever refused; any other is refused exactly when rebound is active and the cap is used up. */
  lemma RefusedIff(lane: Lane, reading: Reading)
    ensures !EvaluateRebound(lane, reading).allowed <==> lane != Identity && reading.active && reading.writes >= 5
  {
  }
}
